/**
 * Why merging the two lightest nodes is right: no code has a smaller cost than the tree this
 * leads to. Nodes are numbers below a fixed size, with a weight and a length each.
 */
module HuffmanOptimal {
  import opened Arith
  import opened Bits

  // Sums over all numbers, of which those that do not count add nothing.

  function Total(V: seq<nat>): (n: nat) {
    if V == [] then 0 else Total(V[..|V| - 1]) + V[|V| - 1]
  }

  lemma {:induction false} TotalSet(V: seq<nat>, i: nat, x: nat)
    requires i < |V|
    ensures Total(V[i := x]) + V[i] == Total(V) + x
  {
    var m := |V| - 1;
    if i < m {
      assert V[i := x][..m] == V[..m][i := x];
      TotalSet(V[..m], i, x);
    } else {
      assert V[i := x][..m] == V[..m];
    }
  }

  lemma {:induction false} TotalAtLeast(V: seq<nat>, i: nat)
    requires i < |V|
    ensures Total(V) >= V[i]
  {
    if i < |V| - 1 {
      TotalAtLeast(V[..|V| - 1], i);
    }
  }

  lemma TwoAtLeast(V: seq<nat>, i: nat, j: nat)
    requires i < |V| && j < |V| && i != j
    ensures Total(V) >= V[i] + V[j]
  {
    TotalSet(V, i, 0);
    TotalAtLeast(V[i := 0], j);
  }

  /** x is a multiple of m. */
  predicate Times(m: nat, x: nat) { m > 0 && x % m == 0 }

  lemma {:induction false} TotalTimes(V: seq<nat>, m: nat)
    requires m > 0 && forall i :: 0 <= i < |V| ==> Times(m, V[i])
    ensures Times(m, Total(V))
  {
    hide Times;
    if V == [] {
      TimesZero(m);
    } else {
      TotalTimes(V[..|V| - 1], m);
      TimesAdd(Total(V[..|V| - 1]), V[|V| - 1], m);
    }
  }

  lemma TimesZero(m: nat)
    requires m > 0
    ensures Times(m, 0)
  {
  }

  lemma TimesAdd(a: nat, b: nat, m: nat)
    requires Times(m, a) && Times(m, b)
    ensures Times(m, a + b)
  {
    var p, q := a / m, b / m;
    Distribute(p, q, m);
    DivMod(a + b, p + q, 0, m);
  }

  function Price(w: nat, l: nat): nat { w * l }

  /** Weight times length, for the nodes of A. */
  function Costs(A: set<nat>, W: seq<nat>, L: seq<nat>): (c: seq<nat>)
    requires |W| == |L|
    ensures |c| == |W| && forall i :: 0 <= i < |W| ==> c[i] == if i in A then Price(W[i], L[i]) else 0
  {
    seq(|W|, i requires 0 <= i < |W| => if i in A then Price(W[i], L[i]) else 0)
  }

  function Cost(A: set<nat>, W: seq<nat>, L: seq<nat>): nat
    requires |W| == |L|
  {
    Total(Costs(A, W, L))
  }

  /** How many of 2^g places a code of length l takes up. */
  function Share(g: nat, l: nat): nat { if l <= g then Pow2(g - l) else 0 }

  function Places(A: set<nat>, L: seq<nat>, g: nat): (c: seq<nat>)
    ensures |c| == |L| && forall i :: 0 <= i < |L| ==> c[i] == if i in A then Share(g, L[i]) else 0
  {
    seq(|L|, i requires 0 <= i < |L| => if i in A then Share(g, L[i]) else 0)
  }

  /** The lengths of the nodes of A are those of a prefix code: they meet Kraft's inequality. */
  predicate Prefix(A: set<nat>, L: seq<nat>, g: nat) {
    && (forall x :: x in A ==> x < |L| && L[x] <= g)
    && Total(Places(A, L, g)) <= Pow2(g)
  }

  /** No prefix code of these nodes costs less. */
  ghost predicate Optimal(A: set<nat>, W: seq<nat>, L: seq<nat>)
    requires |W| == |L|
  {
    forall L2: seq<nat>, g: nat :: |L2| == |W| && Prefix(A, L2, g) ==> Cost(A, W, L) <= Cost(A, W, L2)
  }

  // Two nodes of the greatest length.

  lemma {:induction false} Longest(A: set<nat>, L: seq<nat>) returns (x: nat)
    requires A != {} && forall y :: y in A ==> y < |L|
    ensures x in A && forall y :: y in A ==> L[y] <= L[x]
    decreases |A|
  {
    x :| x in A;
    if A != {x} {
      var z := Longest(A - {x}, L);
      if L[z] > L[x] {
        x := z;
      }
    }
  }

  lemma ShareTimes(g: nat, k: nat, l: nat)
    requires k < l <= g
    ensures Times(2 * Share(g, l), Share(g, k))
  {
    hide Pow2;
    Twofold(g - l);
    Pow2Add(g - l + 1, l - 1 - k);
    Multiple(Pow2(g - k), Pow2(l - 1 - k), Pow2(g - l + 1));
  }

  lemma ShareTwice(g: nat, l: nat)
    requires 0 < l <= g
    ensures Share(g, l - 1) == 2 * Share(g, l) && Share(g, l) > 0
  {
    hide Pow2;
    Twofold(g - l);
  }

  /** Without a single longest code the places taken are even, as is their number. */
  lemma RoomForTwo(A: set<nat>, L: seq<nat>, g: nat, x: nat)
    requires Prefix(A, L, g) && x in A && L[x] > 0 && forall y :: y in A && y != x ==> L[y] < L[x]
    ensures Total(Places(A, L, g)[x := 0]) + 2 * Share(g, L[x]) <= Pow2(g)
  {
    hide Total, Share, Pow2, Times;
    var P, u := Places(A, L, g), Share(g, L[x]);
    var rest: seq<nat> := P[x := 0];
    ShareTwice(g, L[x]);
    TimesZero(2 * u);
    forall i | 0 <= i < |rest| ensures Times(2 * u, rest[i]) {
      if i in A && i != x {
        ShareTimes(g, L[i], L[x]);
      }
    }
    TotalTimes(rest, 2 * u);
    ShareTimes(g, 0, L[x]);
    ShareAll(g);
    TotalSet(P, x, 0);
    Room(Total(rest), Pow2(g), u);
  }

  lemma ShareAll(g: nat)
    ensures Share(g, 0) == Pow2(g)
  {
  }

  /** So it can be shortened. */
  lemma Shorten(A: set<nat>, W: seq<nat>, L: seq<nat>, g: nat, x: nat)
    requires Prefix(A, L, g) && |W| == |L| && x in A && L[x] > 0
    requires forall y :: y in A && y != x ==> L[y] < L[x]
    ensures Prefix(A, L[x := L[x] - 1], g) && Cost(A, W, L[x := L[x] - 1]) <= Cost(A, W, L)
  {
    hide Total, Share, Price, Pow2, Places, Costs;
    RoomForTwo(A, L, g, x);
    ShorterPlaces(A, L, g, x);
    ShorterCost(A, W, L, x);
  }

  lemma ShorterPlaces(A: set<nat>, L: seq<nat>, g: nat, x: nat)
    requires x in A && x < |L| && 0 < L[x] <= g
    ensures Total(Places(A, L[x := L[x] - 1], g)) == Total(Places(A, L, g)[x := 0]) + 2 * Share(g, L[x])
  {
    hide Total, Share;
    var P := Places(A, L, g);
    ShareTwice(g, L[x]);
    assert Places(A, L[x := L[x] - 1], g) == P[x := Share(g, L[x] - 1)];
    TotalSet(P, x, Share(g, L[x] - 1));
    TotalSet(P, x, 0);
  }

  lemma ShorterCost(A: set<nat>, W: seq<nat>, L: seq<nat>, x: nat)
    requires |W| == |L| && x in A && x < |L| && 0 < L[x]
    ensures Cost(A, W, L[x := L[x] - 1]) <= Cost(A, W, L)
  {
    hide Total, Price;
    var C := Costs(A, W, L);
    assert Costs(A, W, L[x := L[x] - 1]) == C[x := Price(W[x], L[x] - 1)];
    TotalSet(C, x, Price(W[x], L[x] - 1));
    LessTimes(W[x], L[x]);
  }

  lemma Twofold(k: nat)
    ensures Pow2(k + 1) == 2 * Pow2(k) && Pow2(k) > 0
  {
  }

  lemma LessTimes(w: nat, l: nat)
    requires l > 0
    ensures Price(w, l - 1) + w == Price(w, l)
  {
  }

  /** Both even: one odd place more than fits cannot be. */
  lemma Room(rest: nat, all: nat, u: nat)
    requires u > 0 && Times(2 * u, rest) && Times(2 * u, all) && rest + u <= all
    ensures rest + 2 * u <= all
  {
    var p, q := rest / (2 * u), all / (2 * u);
    assert rest == p * (2 * u) && all == q * (2 * u);
    if p >= q {
      MulAtMost(q, p, 2 * u);
    }
    MulAtMost(p + 1, q, 2 * u);
    Distribute(p, 1, 2 * u);
  }

  lemma MulAtMost(a: nat, b: nat, m: nat)
    requires a <= b
    ensures a * m <= b * m
  {
  }

  /** A prefix code no dearer in which two nodes share the greatest length. */
  lemma {:induction false} TwoLongest(A: set<nat>, W: seq<nat>, L: seq<nat>, g: nat)
    returns (L2: seq<nat>, x: nat, y: nat)
    requires Prefix(A, L, g) && |W| == |L| && |A| >= 2
    ensures |L2| == |L| && Prefix(A, L2, g) && Cost(A, W, L2) <= Cost(A, W, L)
    ensures x in A && y in A && x != y && L2[x] == L2[y] > 0 && forall z :: z in A ==> L2[z] <= L2[x]
    decreases Total(L)
  {
    hide Costs, Places, Prefix, Cost, Total;
    PrefixSays(A, L, g);
    x := Longest(A, L);
    if y' :| y' in A && y' != x && L[y'] == L[x] {
      L2, y := L, y';
      NotBothEmpty(A, L, g, x, y);
    } else {
      var z := Other(A, x);
      assert L[z] < L[x];
      Shorten(A, W, L, g, x);
      TotalSet(L, x, L[x] - 1);
      L2, x, y := TwoLongest(A, W, L[x := L[x] - 1], g);
    }
  }

  lemma PrefixSays(A: set<nat>, L: seq<nat>, g: nat)
    requires Prefix(A, L, g)
    ensures forall x :: x in A ==> x < |L| && L[x] <= g
  {
  }

  lemma Other(A: set<nat>, x: nat) returns (z: nat)
    requires |A| >= 2 && x in A
    ensures z in A && z != x
  {
    assert |A - {x}| == |A| - 1;
    z :| z in A - {x};
  }

  lemma NotBothEmpty(A: set<nat>, L: seq<nat>, g: nat, x: nat, y: nat)
    requires Prefix(A, L, g) && x in A && y in A && x != y && L[x] == L[y]
    ensures L[x] > 0
  {
    hide Total, Pow2;
    if L[x] == 0 {
      TwoAtLeast(Places(A, L, g), x, y);
      ShareAll(g);
      Twofold(g);
    }
  }

  // The two lightest nodes among the longest.

  lemma Exchange(A: set<nat>, W: seq<nat>, L: seq<nat>, g: nat, i: nat, x: nat)
    requires Prefix(A, L, g) && |W| == |L| && i in A && x in A && W[i] <= W[x] && L[i] <= L[x]
    ensures var L2 := L[i := L[x]][x := L[i]]; Prefix(A, L2, g) && Cost(A, W, L2) <= Cost(A, W, L)
  {
    hide Total, Share, Price, Pow2;
    var L2 := L[i := L[x]][x := L[i]];
    if i == x {
      assert L2 == L;
    } else {
      var P, C := Places(A, L, g), Costs(A, W, L);
      assert Places(A, L2, g) == P[i := P[x]][x := P[i]];
      TotalSet(P, i, P[x]);
      TotalSet(P[i := P[x]], x, P[i]);
      var C2: seq<nat> := C[i := Price(W[i], L[x])];
      assert Costs(A, W, L2) == C2[x := Price(W[x], L[i])];
      TotalSet(C, i, Price(W[i], L[x]));
      TotalSet(C2, x, Price(W[x], L[i]));
      Crossed(W[i], W[x], L[i], L[x]);
    }
  }

  lemma Crossed(v: nat, w: nat, k: nat, l: nat)
    requires v <= w && k <= l
    ensures Price(v, l) + Price(w, k) <= Price(v, k) + Price(w, l)
  {
    Distribute(l, k, w - v);
    Distribute(w, v, l);
    Distribute(w, v, k);
    assert (w - v) * (l - k) >= 0;
  }

  /** A prefix code no dearer in which the two lightest nodes share a length. */
  lemma LightestLongest(A: set<nat>, W: seq<nat>, L: seq<nat>, g: nat, a: nat, b: nat) returns (L2: seq<nat>)
    requires Prefix(A, L, g) && |W| == |L| && a in A && b in A && a != b
    requires forall x :: x in A ==> W[a] <= W[x]
    requires forall x :: x in A && x != a ==> W[b] <= W[x]
    ensures |L2| == |L| && Prefix(A, L2, g) && Cost(A, W, L2) <= Cost(A, W, L) && L2[a] == L2[b] > 0
  {
    hide Prefix, Cost;
    PrefixSays(A, L, g);
    AtLeastTwo(A, a, b);
    var L1, x, y := TwoLongest(A, W, L, g);
    if y == a {
      x, y := y, x;
    }
    Exchange(A, W, L1, g, a, x);
    var L3 := L1[a := L1[x]][x := L1[a]];
    Exchange(A, W, L3, g, b, y);
    L2 := L3[b := L3[y]][y := L3[b]];
  }

  lemma AtLeastTwo(A: set<nat>, a: nat, b: nat)
    requires a in A && b in A && a != b
    ensures |A| >= 2
  {
    assert |A - {a}| == |A| - 1 && b in A - {a};
  }

  // Merging them.

  function MergedSet(A: set<nat>, a: nat, b: nat, c: nat): set<nat> { A - {a, b} + {c} }

  /** V with x at c instead of what was at a and b. */
  function Moved(V: seq<nat>, a: nat, b: nat, c: nat, x: nat): seq<nat>
    requires a < |V| && b < |V| && c < |V|
  {
    V[a := 0][b := 0][c := x]
  }

  lemma TwoOut(V: seq<nat>, a: nat, b: nat, c: nat, x: nat)
    requires a < |V| && b < |V| && c < |V| && a != b && a != c && b != c && V[c] == 0
    ensures Total(Moved(V, a, b, c, x)) + V[a] + V[b] == Total(V) + x
  {
    hide Total;
    var V1: seq<nat> := V[a := 0];
    var V2: seq<nat> := V1[b := 0];
    TotalSet(V, a, 0);
    TotalSet(V1, b, 0);
    TotalSet(V2, c, x);
  }

  lemma MovedPlaces(A: set<nat>, L: seq<nat>, g: nat, a: nat, b: nat, c: nat, l: nat)
    requires c < |L| && c !in A && a in A && b in A && a != b && a < |L| && b < |L|
    ensures Places(MergedSet(A, a, b, c), L[c := l], g) == Moved(Places(A, L, g), a, b, c, Share(g, l))
  {
    hide Share;
  }

  lemma MovedCosts(A: set<nat>, W: seq<nat>, L: seq<nat>, a: nat, b: nat, c: nat, w: nat, l: nat)
    requires |W| == |L| && c < |L| && c !in A && a in A && b in A && a != b && a < |L| && b < |L|
    ensures Costs(MergedSet(A, a, b, c), W[c := w], L[c := l]) == Moved(Costs(A, W, L), a, b, c, Price(w, l))
  {
    hide Price;
  }

  predicate Brothers(A: set<nat>, L: seq<nat>, a: nat, b: nat, c: nat, l: nat) {
    && c < |L| && c !in A && a in A && b in A && a != b && a < |L| && b < |L|
    && L[a] == L[b] == l + 1
  }

  /** The father of a and b one level above them takes up the same places. */
  lemma FatherPlaces(A: set<nat>, L: seq<nat>, g: nat, a: nat, b: nat, c: nat, l: nat)
    requires Brothers(A, L, a, b, c, l) && l < g
    ensures Total(Places(MergedSet(A, a, b, c), L[c := l], g)) == Total(Places(A, L, g))
  {
    hide Total, Share, Moved, MergedSet, Places;
    var P := Places(A, L, g);
    ShareTwice(g, l + 1);
    MovedPlaces(A, L, g, a, b, c, l);
    TwoOut(P, a, b, c, Share(g, l));
  }

  /** It costs less, by the weights of the two. */
  lemma FatherCost(A: set<nat>, W: seq<nat>, L: seq<nat>, a: nat, b: nat, c: nat, l: nat)
    requires |W| == |L| && Brothers(A, L, a, b, c, l)
    ensures Cost(MergedSet(A, a, b, c), W[c := W[a] + W[b]], L[c := l]) + W[a] + W[b] == Cost(A, W, L)
  {
    hide Total, Price, Moved, MergedSet, Costs;
    var C := Costs(A, W, L);
    MovedCosts(A, W, L, a, b, c, W[a] + W[b], l);
    TwoOut(C, a, b, c, Price(W[a] + W[b], l));
    OneMore(W[a], W[b], l);
  }

  lemma OneMore(v: nat, w: nat, l: nat)
    ensures Price(v, l + 1) + Price(w, l + 1) == Price(v + w, l) + v + w
  {
  }

  /** Any prefix code of the nodes gives one of the nodes after the merge that costs less by the new weight. */
  lemma MergeLower(A: set<nat>, W: seq<nat>, L: seq<nat>, g: nat, a: nat, b: nat, c: nat) returns (L2: seq<nat>)
    requires Prefix(A, L, g) && |W| == |L| && c < |L| && c !in A && a in A && b in A && a != b
    requires forall x :: x in A ==> W[a] <= W[x]
    requires forall x :: x in A && x != a ==> W[b] <= W[x]
    ensures |L2| == |L| && Prefix(MergedSet(A, a, b, c), L2, g)
    ensures Cost(MergedSet(A, a, b, c), W[c := W[a] + W[b]], L2) + W[a] + W[b] <= Cost(A, W, L)
  {
    hide Cost, Places;
    var L1 := LightestLongest(A, W, L, g, a, b);
    FatherPlaces(A, L1, g, a, b, c, L1[a] - 1);
    FatherCost(A, W, L1, a, b, c, L1[a] - 1);
    L2 := L1[c := L1[a] - 1];
  }

  // What merging keeps.

  function Weights(A: set<nat>, W: seq<nat>): (c: seq<nat>)
    ensures |c| == |W| && forall i :: 0 <= i < |W| ==> c[i] == if i in A then W[i] else 0
  {
    seq(|W|, i requires 0 <= i < |W| => if i in A then W[i] else 0)
  }

  function Weight(A: set<nat>, W: seq<nat>): nat { Total(Weights(A, W)) }

  lemma MergedWeight(A: set<nat>, W: seq<nat>, a: nat, b: nat, c: nat)
    requires c < |W| && c !in A && a in A && b in A && a != b && a < |W| && b < |W|
    ensures W[a] + W[b] <= Weight(A, W)
    ensures Weight(MergedSet(A, a, b, c), W[c := W[a] + W[b]]) == Weight(A, W)
  {
    hide Total;
    var V := Weights(A, W);
    TwoAtLeast(V, a, b);
    TwoOut(V, a, b, c, W[a] + W[b]);
    assert Weights(MergedSet(A, a, b, c), W[c := W[a] + W[b]]) == Moved(V, a, b, c, W[a] + W[b]);
  }

  lemma {:induction false} TotalZero(V: seq<nat>)
    requires forall i :: 0 <= i < |V| ==> V[i] == 0
    ensures Total(V) == 0
  {
    if V != [] {
      TotalZero(V[..|V| - 1]);
    }
  }

  /** A root alone costs nothing and takes up all places. */
  lemma RootAlone(W: seq<nat>, L: seq<nat>, g: nat, r: nat)
    requires |W| == |L| && r < |L| && L[r] == 0
    ensures Cost({r}, W, L) == 0 && Total(Places({r}, L, g)) == Pow2(g)
  {
    hide Total;
    TotalZero(Costs({r}, W, L));
    var P := Places({r}, L, g);
    ShareAll(g);
    TotalZero(P[r := 0]);
    TotalSet(P, r, 0);
  }

  /** Only the lengths of the nodes of A matter. */
  lemma SameCost(A: set<nat>, W: seq<nat>, L: seq<nat>, L2: seq<nat>)
    requires |W| == |L| == |L2| && forall x :: x in A && x < |L| ==> L[x] == L2[x]
    ensures Cost(A, W, L) == Cost(A, W, L2)
  {
    assert Costs(A, W, L) == Costs(A, W, L2);
  }
}
