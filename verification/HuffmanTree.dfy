/** build_tree: the Huffman tree from the frequencies, merged two nodes at a time with a heap. */
module HuffmanTree {
  import opened Bits
  import opened BitOrder
  import opened HuffmanCodes
  import opened HuffmanHeap
  import opened HuffmanLengths
  import Opt = HuffmanOptimal

  const L_CODES: nat := 286
  const HEAP_SIZE: nat := 2 * L_CODES + 1

  // Merging. The heap q and the list H of merged nodes share one array from its two ends.

  datatype Merge = Merge(q: seq<nat>, H: seq<nat>, freq: seq<nat>, depth: seq<nat>, dad: seq<nat>, node: nat)

  /** Every used leaf and every inner node so far is in exactly one place. */
  ghost predicate Counted(q: seq<nat>, H: seq<nat>, used: set<nat>, elems: nat, node: nat) {
    forall id :: multiset(q)[id] + multiset(H)[id] == if id in used || elems <= id < node then 1 else 0
  }

  /** The t-th pair from the end are the sons of the t-th inner node. */
  predicate Sons(H: seq<nat>, dad: seq<nat>, elems: nat, t: nat)
    requires 2 * t + 1 < |H| && Below(H, |dad|)
  {
    var a, b := H[|H| - 2 - 2 * t], H[|H| - 1 - 2 * t];
    dad[a] == elems + t && dad[b] == elems + t && a < elems + t && b < elems + t
  }

  predicate SizesOk(s: Merge, elems: nat, n: nat) {
    && |s.freq| == |s.depth| == |s.dad| == 2 * elems + 1 && 2 <= n <= elems <= s.node
    && |s.q| + (s.node - elems) == n && 1 <= |s.q| && |s.H| == 2 * (s.node - elems)
    && Below(s.q, s.node) && Below(s.H, s.node)
  }

  ghost predicate MergeOk(s: Merge, used: set<nat>, elems: nat, n: nat) {
    && SizesOk(s, elems, n)
    && (forall x :: x in used ==> x < elems)
    && Counted(s.q, s.H, used, elems, s.node)
    && (forall t :: 0 <= t < s.node - elems ==> Sons(s.H, s.dad, elems, t))
  }

  /** The two nodes a, b become the sons of the next inner node. */
  function Merged(s: Merge, q: seq<nat>, a: nat, b: nat, freq: seq<nat>, depth: seq<nat>): Merge
    requires a < |s.dad| && b < |s.dad|
  {
    Merge(q, [b, a] + s.H, freq, depth, s.dad[a := s.node][b := s.node], s.node + 1)
  }

  predicate Takes(s: Merge, q: seq<nat>, a: nat, b: nat) {
    && a < s.node && b < s.node && |q| + 1 == |s.q|
    && multiset(s.q) + multiset{s.node} == multiset(q) + multiset{a, b}
  }

  lemma MergedCounted(s: Merge, used: set<nat>, elems: nat, q: seq<nat>, a: nat, b: nat)
    requires Counted(s.q, s.H, used, elems, s.node) && Takes(s, q, a, b) && elems <= s.node
    requires forall x :: x in used ==> x < elems
    ensures Counted(q, [b, a] + s.H, used, elems, s.node + 1)
  {
    assert multiset([b, a] + s.H) == multiset{a, b} + multiset(s.H);
    forall id
      ensures multiset(q)[id] + multiset([b, a] + s.H)[id] == if id in used || elems <= id < s.node + 1 then 1 else 0
    {
      assert (multiset(s.q) + multiset{s.node})[id] == (multiset(q) + multiset{a, b})[id];
      assert multiset(s.q)[id] + multiset(s.H)[id] == if id in used || elems <= id < s.node then 1 else 0;
    }
  }

  lemma MergedSons(s: Merge, used: set<nat>, elems: nat, n: nat, q: seq<nat>, a: nat, b: nat, t: nat)
    requires MergeOk(s, used, elems, n) && Takes(s, q, a, b) && t < s.node + 1 - elems
    ensures var H, dad := [b, a] + s.H, s.dad[a := s.node][b := s.node];
      |H| == 2 * (s.node - elems) + 2 && Below(H, |dad|) && Sons(H, dad, elems, t)
  {
    hide Counted, Takes, HeapOk;
    TwoOut(s, used, elems, n, q, a, b);
    var H := [b, a] + s.H;
    if t < s.node - elems {
      var i := |s.H| - 2 - 2 * t;
      assert Sons(s.H, s.dad, elems, t);
      NotMerged(s, used, elems, n, a, i);
      NotMerged(s, used, elems, n, a, i + 1);
      NotMerged(s, used, elems, n, b, i);
      NotMerged(s, used, elems, n, b, i + 1);
      assert H[i + 2] == s.H[i] && H[i + 3] == s.H[i + 1];
    }
  }

  lemma MergedOk(s: Merge, used: set<nat>, elems: nat, n: nat, q: seq<nat>, a: nat, b: nat, freq: seq<nat>,
                 depth: seq<nat>)
    requires MergeOk(s, used, elems, n) && |s.q| >= 2 && Takes(s, q, a, b)
    requires |freq| == |depth| == 2 * elems + 1
    ensures MergeOk(Merged(s, q, a, b, freq, depth), used, elems, n)
  {
    var s2 := Merged(s, q, a, b, freq, depth);
    MergedCounted(s, used, elems, q, a, b);
    NewBelow(s, q, a, b);
    forall t | 0 <= t < s2.node - elems ensures 2 * t + 1 < |s2.H| && Below(s2.H, |s2.dad|)
        && Sons(s2.H, s2.dad, elems, t) {
      MergedSons(s, used, elems, n, q, a, b, t);
    }
    hide Counted, Sons, Takes;
    assert Below(s2.H, s2.node);
  }

  lemma NewBelow(s: Merge, q: seq<nat>, a: nat, b: nat)
    requires Below(s.q, s.node) && Takes(s, q, a, b)
    ensures Below(q, s.node + 1)
  {
    forall i | 0 <= i < |q| ensures q[i] < s.node + 1 {
      assert q[i] in multiset(q) + multiset{a, b};
      assert q[i] in multiset(s.q) || q[i] == s.node;
    }
  }

  lemma TwoOut(s: Merge, used: set<nat>, elems: nat, n: nat, q: seq<nat>, a: nat, b: nat)
    requires MergeOk(s, used, elems, n) && Takes(s, q, a, b)
    ensures a in multiset(s.q) && b in multiset(s.q) && a != b
  {
    assert a in multiset(q) + multiset{a, b} && b in multiset(q) + multiset{a, b};
    assert a == b ==> (multiset(q) + multiset{a, b})[a] >= 2;
    assert (multiset(s.q) + multiset{s.node})[a] == multiset(s.q)[a];
    assert multiset(s.q)[a] + multiset(s.H)[a] <= 1;
  }

  lemma NotMerged(s: Merge, used: set<nat>, elems: nat, n: nat, a: nat, j: nat)
    requires MergeOk(s, used, elems, n) && a in multiset(s.q) && j < |s.H|
    ensures s.H[j] != a
  {
  }

  function Max(a: nat, b: nat): nat { if a >= b then a else b }

  predicate HeapOk(s: Merge) {
    Nodes(s.q, s.freq, s.depth) && Heap(s.q, s.freq, s.depth, 1)
  }

  /** The two smallest nodes a and b, in this order, have become the sons of a new node. */
  predicate Joins(s: Merge, s2: Merge, a: nat, b: nat) {
    && Nodes(s.q, s.freq, s.depth) && a in s.q && a < s.node < |s.freq| && b < s.node
    && multiset(s.q) + multiset{s.node} == multiset(s2.q) + multiset{a, b}
    && Least(s.q, s.freq, s.depth, a)
    && (forall x :: x in multiset(s.q) - multiset{a} ==> x < |s.freq| && Smaller(s.freq, s.depth, b, x))
    && s2.H == [b, a] + s.H
    && s2.freq == s.freq[s.node := (s.freq[a] + s.freq[b]) % 0x1_0000]
    && s2.depth == s.depth[s.node := (Max(s.depth[a], s.depth[b]) + 1) % 0x100]
    && |s.dad| == |s.freq| && s2.dad == s.dad[a := s.node][b := s.node]
  }

  /** The two smallest nodes are merged. */
  method MergeTwo(s: Merge, ghost used: set<nat>, elems: nat, ghost n: nat)
    returns (s2: Merge, ghost a: nat, ghost b: nat)
    requires MergeOk(s, used, elems, n) && HeapOk(s) && |s.q| >= 2
    ensures MergeOk(s2, used, elems, n) && HeapOk(s2) && |s2.q| == |s.q| - 1
    ensures Joins(s, s2, a, b)
  {
    hide MergeOk, Counted, Takes, Heap, Least, Nodes, Below, Joins;
    NodeFits(s, used, elems, n);
    var n1, q := Remove(s.q, s.freq, s.depth, s.node);
    var m := q[0];
    var freq := s.freq[s.node := (s.freq[n1] + s.freq[m]) % 0x1_0000];
    var depth := s.depth[s.node := (Max(s.depth[n1], s.depth[m]) + 1) % 0x100];
    HeapBelow(q, s.freq, s.depth, s.node);
    TopIsLeast(q, s.freq, s.depth);
    OtherNode(q, s.freq, s.depth, s.node, freq[s.node], depth[s.node]);
    var r := PqDownHeap(q[0 := s.node], freq, depth, 1);
    TakesIs(s, q, r, n1);
    MergedOk(s, used, elems, n, r, n1, m, freq, depth);
    s2 := Merge(r, [m, n1] + s.H, freq, depth, s.dad[n1 := s.node][m := s.node], s.node + 1);
    a, b := n1, m;
    JoinsIs(s, s2, q, a, b);
  }

  lemma HeapBelow(q: seq<nat>, freq: seq<nat>, depth: seq<nat>, node: nat)
    requires Below(q, node) && node <= |freq| == |depth|
    ensures Nodes(q, freq, depth)
  {
  }

  lemma JoinsIs(s: Merge, s2: Merge, q: seq<nat>, a: nat, b: nat)
    requires Nodes(s.q, s.freq, s.depth) && Nodes(q, s.freq, s.depth) && a < s.node < |s.freq| == |s.dad| && b < s.node
    requires multiset(s.q) == multiset(q) + multiset{a} && Takes(s, s2.q, a, b)
    requires Least(s.q, s.freq, s.depth, a) && Least(q, s.freq, s.depth, b)
    requires s2.H == [b, a] + s.H && s2.freq == s.freq[s.node := (s.freq[a] + s.freq[b]) % 0x1_0000]
    requires s2.depth == s.depth[s.node := (Max(s.depth[a], s.depth[b]) + 1) % 0x100]
    requires s2.dad == s.dad[a := s.node][b := s.node]
    ensures Joins(s, s2, a, b)
  {
    hide Smaller;
    assert a in multiset(s.q);
    forall x | x in multiset(s.q) - multiset{a} ensures x < |s.freq| && Smaller(s.freq, s.depth, b, x) {
      assert x in multiset(q);
      assert x in q;
    }
  }

  lemma TakesIs(s: Merge, q: seq<nat>, r: seq<nat>, a: nat)
    requires |q| + 1 == |s.q| && |q| >= 1 && Below(q, s.node) && a < s.node
             && multiset(s.q) == multiset(q) + multiset{a}
    requires |r| == |q| && multiset(r) == multiset(q[0 := s.node])
    ensures Takes(s, r, a, q[0])
  {
  }

  lemma NodeFits(s: Merge, used: set<nat>, elems: nat, n: nat)
    requires MergeOk(s, used, elems, n) && |s.q| >= 2
    ensures s.node < 2 * elems && |s.freq| == |s.depth| == |s.dad| == 2 * elems + 1 && Below(s.q, s.node)
  {
  }

  /** The merged nodes with the root in front. */
  lemma FinalList(s: Merge, used: set<nat>, elems: nat, n: nat)
    requires MergeOk(s, used, elems, n) && |s.q| == 1
    ensures var H := [s.q[0]] + s.H; var p := s.node - elems;
      && NodeList(H, s.dad, elems, p) && ListOk(H)
      && forall x :: 0 <= x < elems ==> (x in H <==> x in used)
  {
    var H, p := [s.q[0]] + s.H, s.node - elems;
    RootLast(s, used, elems, n);
    Joined(s, used, elems);
    OnceEach(H, used, elems, s.node);
    forall i | 0 <= i < p ensures Brothers(H, s.dad, elems, p, i) {
      assert Sons(s.H, s.dad, elems, p - 1 - i);
    }
    hide Sons, Counted, Brothers;
  }

  /** Every used leaf and every inner node is in H once, and nothing else is. */
  ghost predicate Lists(H: seq<nat>, used: set<nat>, elems: nat, node: nat) {
    forall id :: multiset(H)[id] == if id in used || elems <= id < node then 1 else 0
  }

  lemma Joined(s: Merge, used: set<nat>, elems: nat)
    requires Counted(s.q, s.H, used, elems, s.node) && |s.q| == 1
    ensures Lists([s.q[0]] + s.H, used, elems, s.node)
  {
  }

  lemma OnceEach(H: seq<nat>, used: set<nat>, elems: nat, node: nat)
    requires Lists(H, used, elems, node)
    ensures ListOk(H)
    ensures forall id :: id in H <==> (id in used || elems <= id < node)
  {
    forall j, k | 0 <= j < k < |H| ensures H[j] != H[k] {
      if H[j] == H[k] {
        TwiceIn(H, j, k);
      }
    }
    forall id ensures id in H <==> (id in used || elems <= id < node) {
      assert id in H <==> id in multiset(H);
    }
  }

  lemma TwiceIn(H: seq<nat>, j: nat, k: nat)
    requires j < k < |H| && H[j] == H[k]
    ensures multiset(H)[H[k]] >= 2
  {
    assert H == H[..k] + [H[k]] + H[k + 1..];
    assert H[j] in H[..k];
  }

  lemma SonsBelow(s: Merge, used: set<nat>, elems: nat, n: nat, j: nat)
    requires MergeOk(s, used, elems, n) && j < |s.H|
    ensures s.H[j] < s.node - 1
  {
    var t := (|s.H| - 1 - j) / 2;
    assert Sons(s.H, s.dad, elems, t);
    assert j == |s.H| - 2 - 2 * t || j == |s.H| - 1 - 2 * t;
  }

  /** The last inner node is the one left on the heap. */
  lemma RootLast(s: Merge, used: set<nat>, elems: nat, n: nat)
    requires MergeOk(s, used, elems, n) && |s.q| == 1
    ensures s.node > elems && s.q[0] == s.node - 1
  {
    var root := s.node - 1;
    forall j | 0 <= j < |s.H| ensures s.H[j] != root {
      SonsBelow(s, used, elems, n, j);
    }
    assert root !in multiset(s.H);
    assert multiset(s.q)[root] + multiset(s.H)[root] == 1;
    assert root in s.q;
  }

  // The symbols that are used, and two at least.

  /** q lists the symbols below n with a frequency, each once. */
  ghost predicate Heaped(q: seq<nat>, freq: seq<nat>, n: nat) {
    && n <= |freq| && Below(q, n)
    && forall id: nat :: multiset(q)[id] == if id < n && freq[id] > 0 then 1 else 0
  }

  method Used(freq: seq<nat>, elems: nat) returns (q: seq<nat>, maxCode: int)
    requires elems <= |freq|
    ensures Heaped(q, freq, elems) && Top(freq, elems, maxCode)
  {
    q, maxCode := [], -1;
    var n := 0;
    while n < elems
      invariant 0 <= n <= elems && Heaped(q, freq, n) && Top(freq, n, maxCode)
    {
      HeapedNext(q, freq, n);
      if freq[n] != 0 {
        q, maxCode := q + [n], n;
      }
      n := n + 1;
    }
  }

  /** maxCode is the largest symbol below n with a frequency, -1 if there is none. */
  predicate Top(freq: seq<nat>, n: nat, maxCode: int) {
    && -1 <= maxCode < n <= |freq| && (maxCode >= 0 ==> freq[maxCode] > 0)
    && forall i :: maxCode < i < n ==> freq[i] == 0
  }

  lemma HeapedNext(q: seq<nat>, freq: seq<nat>, n: nat)
    requires Heaped(q, freq, n) && n < |freq|
    ensures freq[n] == 0 ==> Heaped(q, freq, n + 1)
    ensures freq[n] > 0 ==> Heaped(q + [n], freq, n + 1)
  {
  }

  lemma HeapedForce(q: seq<nat>, freq: seq<nat>, n: nat, x: nat)
    requires Heaped(q, freq, n) && x < n && freq[x] == 0
    ensures Heaped(q + [x], freq[x := 1], n)
  {
  }

  /** With one symbol of at least 2, symbol 0 is free. */
  lemma ZeroFree(q: seq<nat>, freq: seq<nat>, elems: nat, maxCode: int)
    requires Heaped(q, freq, elems) && Top(freq, elems, maxCode) && |q| < 2 && maxCode >= 2
    ensures freq[0] == 0
  {
  }

  lemma TwoUsed(q: seq<nat>, freq: seq<nat>, n: nat)
    requires Heaped(q, freq, n)
    ensures forall i, j :: 0 <= i < j < n && freq[i] > 0 && freq[j] > 0 ==> |q| >= 2
  {
    forall i, j | 0 <= i < j < n && freq[i] > 0 && freq[j] > 0 ensures |q| >= 2 {
      assert multiset(q)[i] == 1 && multiset(q)[j] == 1;
      assert i in q && j in q;
    }
  }

  /** f2 is f with symbols added only where f has fewer than two. */
  predicate Forced(f: seq<nat>, f2: seq<nat>) {
    && |f2| == |f| && forall i :: 0 <= i < |f| ==> if f[i] > 0 then f2[i] == f[i] else f2[i] <= 1
  }

  method Force(q0: seq<nat>, freq0: seq<nat>, elems: nat, maxCode0: int)
    returns (q: seq<nat>, freq: seq<nat>, maxCode: int)
    requires Heaped(q0, freq0, elems) && Top(freq0, elems, maxCode0) && 3 <= elems
    ensures Heaped(q, freq, elems) && |q| >= 2 && Forced(freq0, freq)
    ensures |q0| >= 2 ==> freq == freq0
  {
    q, freq, maxCode := q0, freq0, maxCode0;
    while |q| < 2
      invariant Heaped(q, freq, elems) && Forced(freq0, freq) && (|q0| >= 2 ==> freq == freq0)
      invariant |q| < 2 ==> Top(freq, elems, maxCode)
    {
      var node: nat;
      if maxCode < 2 {
        maxCode := maxCode + 1;
        node := maxCode;
      } else {
        ZeroFree(q, freq, elems, maxCode);
        node := 0;
      }
      HeapedForce(q, freq, elems, node);
      q, freq := q + [node], freq[node := 1];
    }
  }

  // How many leaves there can be.

  function Numbers(n: nat): (r: set<nat>)
    ensures |r| == n
    ensures forall i :: i in r <==> 0 <= i < n
  {
    if n == 0 then {} else Numbers(n - 1) + {n - 1}
  }

  lemma {:induction false} SubsetSize(a: set<nat>, b: set<nat>)
    requires a <= b
    ensures |a| <= |b|
    decreases |a|
  {
    if a != {} {
      var x :| x in a;
      SubsetSize(a - {x}, b - {x});
    }
  }

  lemma {:induction false} LeafSet(H: seq<nat>, elems: nat, h: nat) returns (leaves: set<nat>)
    requires ListOk(H) && h <= |H|
    ensures |leaves| == LeafCount(H, elems, h)
    ensures forall x :: x in leaves <==> x < elems && x in H[..h]
  {
    if h == 0 {
      leaves := {};
    } else {
      leaves := LeafSet(H, elems, h - 1);
      assert H[..h] == H[..h - 1] + [H[h - 1]];
      if H[h - 1] < elems {
        assert H[h - 1] !in H[..h - 1];
        leaves := leaves + {H[h - 1]};
      }
    }
  }

  lemma LeafBound(H: seq<nat>, elems: nat)
    requires ListOk(H)
    ensures LeafCount(H, elems, |H|) <= elems
  {
    var leaves := LeafSet(H, elems, |H|);
    SubsetSize(leaves, Numbers(elems));
  }

  // No code is cheaper.

  /** The sons of the t-th inner node lie one below it. */
  predicate SonsDeep(H: seq<nat>, D: seq<nat>, elems: nat, t: nat)
    requires 2 * t + 1 < |H|
  {
    var a, b := H[|H| - 2 - 2 * t], H[|H| - 1 - 2 * t];
    a < |D| && b < |D| && elems + t < |D| && D[a] == D[b] == D[elems + t] + 1
  }

  predicate AllDeep(H: seq<nat>, D: seq<nat>, elems: nat) {
    forall t :: 0 <= t < |H| / 2 ==> SonsDeep(H, D, elems, t)
  }

  ghost function Alive(q: seq<nat>): set<nat> { set x | x in q }

  /** Some prefix code of the nodes alive costs no more than bound. */
  ghost predicate Cheap(s: Merge, g: nat, bound: int) {
    exists L: seq<nat> ::
      |L| == |s.freq| && Opt.Prefix(Alive(s.q), L, g) && Opt.Cost(Alive(s.q), s.freq, L) <= bound
  }

  /** What a prefix code of the symbols costs beyond `inner` is enough for a prefix code of the nodes alive. */
  ghost predicate Lower(s: Merge, used: set<nat>, f: seq<nat>, inner: nat) {
    forall L: seq<nat>, g: nat | |L| == |f| && Opt.Prefix(used, L, g) :: Cheap(s, g, Opt.Cost(used, f, L) - inner)
  }

  /** With every son one below its father, the symbols cost `inner` more than the nodes alive, on the same places. */
  ghost predicate Exact(s: Merge, used: set<nat>, f: seq<nat>, elems: nat, inner: nat)
    requires |s.freq| == |f|
  {
    forall D: seq<nat>, g: nat | |D| == |f| && AllDeep(s.H, D, elems) && AtMost(D, g) ::
      && Opt.Cost(used, f, D) == Opt.Cost(Alive(s.q), s.freq, D) + inner
      && Opt.Total(Opt.Places(used, D, g)) == Opt.Total(Opt.Places(Alive(s.q), D, g))
  }

  predicate AtMost(D: seq<nat>, g: nat) { forall x :: 0 <= x < |D| ==> D[x] <= g }

  ghost predicate Best(s: Merge, used: set<nat>, f: seq<nat>, elems: nat, inner: nat) {
    && |s.freq| == |f| && Opt.Weight(Alive(s.q), s.freq) == Opt.Weight(used, f)
    && Lower(s, used, f, inner) && Exact(s, used, f, elems, inner)
  }

  lemma FirstBest(s: Merge, used: set<nat>, elems: nat)
    requires Alive(s.q) == used && s.H == []
    ensures Best(s, used, s.freq, elems, 0)
  {
  }

  lemma AliveAfter(s: Merge, s2: Merge, used: set<nat>, elems: nat, n: nat, a: nat, b: nat)
    requires MergeOk(s, used, elems, n) && Joins(s, s2, a, b) && |s2.q| == |s.q| - 1
    ensures var A := Alive(s.q); a in A && b in A && a != b && s.node !in A
    ensures Alive(s2.q) == Opt.MergedSet(Alive(s.q), a, b, s.node)
    ensures forall x :: x in Alive(s.q) ==> x < |s.freq| && s.freq[a] <= s.freq[x]
    ensures forall x :: x in Alive(s.q) && x != a ==> s.freq[b] <= s.freq[x]
  {
    hide Sons;
    TwoOut(s, used, elems, n, s2.q, a, b);
    forall x ensures x in s2.q <==> x in Opt.MergedSet(Alive(s.q), a, b, s.node) {
      assert (multiset(s.q) + multiset{s.node})[x] == (multiset(s2.q) + multiset{a, b})[x];
      assert multiset(s.q)[x] + multiset(s.H)[x] <= 1;
      assert x in s.q <==> multiset(s.q)[x] > 0;
      assert x in s2.q <==> multiset(s2.q)[x] > 0;
    }
    forall x | x in Alive(s.q) && x != a ensures s.freq[b] <= s.freq[x] {
      assert x in multiset(s.q) - multiset{a};
    }
  }

  /** The new node weighs as much as its sons. */
  predicate Sums(s: Merge, s2: Merge, a: nat, b: nat) {
    && a < |s.freq| && b < |s.freq| && s.node < |s.freq|
    && s2.freq == s.freq[s.node := s.freq[a] + s.freq[b]] && s2.H == [b, a] + s.H
  }

  lemma CheapAfter(s: Merge, s2: Merge, a: nat, b: nat, g: nat, bound: int)
    requires Sums(s, s2, a, b) && Cheap(s, g, bound)
    requires var A := Alive(s.q); a in A && b in A && a != b && s.node !in A
    requires Alive(s2.q) == Opt.MergedSet(Alive(s.q), a, b, s.node)
    requires forall x :: x in Alive(s.q) ==> x < |s.freq| && s.freq[a] <= s.freq[x]
    requires forall x :: x in Alive(s.q) && x != a ==> s.freq[b] <= s.freq[x]
    ensures Cheap(s2, g, bound - s.freq[a] - s.freq[b])
  {
    hide Opt.Cost, Opt.Prefix, Opt.MergedSet, Alive;
    var L: seq<nat> :|
      |L| == |s.freq| && Opt.Prefix(Alive(s.q), L, g) && Opt.Cost(Alive(s.q), s.freq, L) <= bound;
    var L2 := Opt.MergeLower(Alive(s.q), s.freq, L, g, a, b, s.node);
  }

  lemma ExactAfter(s: Merge, s2: Merge, used: set<nat>, f: seq<nat>, elems: nat, inner: nat, a: nat, b: nat)
    requires Sums(s, s2, a, b) && |s.freq| == |f| && Exact(s, used, f, elems, inner)
    requires var A := Alive(s.q); a in A && b in A && a != b && s.node !in A
    requires Alive(s2.q) == Opt.MergedSet(Alive(s.q), a, b, s.node) && |s.H| == 2 * (s.node - elems)
    ensures Exact(s2, used, f, elems, inner + s.freq[a] + s.freq[b])
  {
    hide Opt.Cost, Opt.Total, Opt.Places, Opt.MergedSet, Alive, AtMost;
    forall D: seq<nat>, g: nat | |D| == |f| && AllDeep(s2.H, D, elems) && AtMost(D, g)
      ensures Opt.Cost(used, f, D) == Opt.Cost(Alive(s2.q), s2.freq, D) + inner + s.freq[a] + s.freq[b]
      ensures Opt.Total(Opt.Places(used, D, g)) == Opt.Total(Opt.Places(Alive(s2.q), D, g))
    {
      DeepBefore(s, s2, D, elems, a, b);
      DeepAt(D, g, a);
      var c := s.node;
      assert D[c := D[c]] == D;
      Opt.FatherCost(Alive(s.q), s.freq, D, a, b, c, D[c]);
      Opt.FatherPlaces(Alive(s.q), D, g, a, b, c, D[c]);
    }
  }

  lemma DeepAt(D: seq<nat>, g: nat, x: nat)
    requires AtMost(D, g) && x < |D|
    ensures D[x] <= g
  {
  }

  lemma DeepBefore(s: Merge, s2: Merge, D: seq<nat>, elems: nat, a: nat, b: nat)
    requires s2.H == [b, a] + s.H && AllDeep(s2.H, D, elems) && |s.H| == 2 * (s.node - elems)
    ensures AllDeep(s.H, D, elems)
    ensures a < |D| && b < |D| && s.node < |D| && D[a] == D[b] == D[s.node] + 1
  {
    assert SonsDeep(s2.H, D, elems, s.node - elems);
    forall t | 0 <= t < |s.H| / 2 ensures SonsDeep(s.H, D, elems, t) {
      assert SonsDeep(s2.H, D, elems, t);
    }
  }

  /** Merging the two lightest nodes, without wrapping their weights, keeps what is best. */
  lemma BestAfter(s: Merge, s2: Merge, used: set<nat>, f: seq<nat>, elems: nat, n: nat, inner: nat, a: nat, b: nat)
    requires MergeOk(s, used, elems, n) && Joins(s, s2, a, b) && |s2.q| == |s.q| - 1
    requires Best(s, used, f, elems, inner) && Opt.Weight(used, f) < 0x1_0000
    ensures a < |s.freq| && b < |s.freq| && Best(s2, used, f, elems, inner + s.freq[a] + s.freq[b])
  {
    AliveAfter(s, s2, used, elems, n, a, b);
    JoinsSays(s, s2, used, elems, n, a, b);
    hide MergeOk, Joins, Alive, Opt.Weight, Opt.MergedSet, Exact, Cheap, Opt.Prefix, Opt.Cost;
    Opt.MergedWeight(Alive(s.q), s.freq, a, b, s.node);
    assert Sums(s, s2, a, b);
    ExactAfter(s, s2, used, f, elems, inner, a, b);
    forall L: seq<nat>, g: nat | |L| == |f| && Opt.Prefix(used, L, g)
      ensures Cheap(s2, g, Opt.Cost(used, f, L) - (inner + s.freq[a] + s.freq[b]))
    {
      CheapAfter(s, s2, a, b, g, Opt.Cost(used, f, L) - inner);
    }
  }

  lemma JoinsSays(s: Merge, s2: Merge, used: set<nat>, elems: nat, n: nat, a: nat, b: nat)
    requires MergeOk(s, used, elems, n) && Joins(s, s2, a, b)
    ensures a < s.node < |s.freq| && b < s.node && s2.H == [b, a] + s.H && |s.H| == 2 * (s.node - elems)
    ensures s2.freq == s.freq[s.node := (s.freq[a] + s.freq[b]) % 0x1_0000]
  {
  }

  lemma ListDeep(s: Merge, used: set<nat>, elems: nat, n: nat, D: seq<nat>)
    requires MergeOk(s, used, elems, n) && |s.q| == 1 && Depths(D, [s.q[0]] + s.H, s.dad, |s.H| + 1)
    ensures AllDeep(s.H, D, elems)
  {
    var H := [s.q[0]] + s.H;
    forall t | 0 <= t < |s.H| / 2 ensures SonsDeep(s.H, D, elems, t) {
      assert Sons(s.H, s.dad, elems, t);
      var i := |s.H| - 2 - 2 * t;
      assert H[i + 1] == s.H[i] && H[i + 2] == s.H[i + 1];
      assert DepthAt(D, H, s.dad, i + 1) && DepthAt(D, H, s.dad, i + 2);
    }
  }

  lemma {:induction false} Deepest(D: seq<nat>) returns (g: nat)
    ensures AtMost(D, g)
  {
    if D == [] {
      g := 0;
    } else {
      var k := Deepest(D[..|D| - 1]);
      g := Max(k, D[|D| - 1]);
    }
  }

  /** The depths of the symbols in the tree: a prefix code that takes up all places, and no other is cheaper. */
  ghost predicate BestDepths(used: set<nat>, f: seq<nat>, D: seq<nat>) {
    && |D| == |f| && Opt.Optimal(used, f, D)
    && exists g :: Opt.Prefix(used, D, g) && Opt.Total(Opt.Places(used, D, g)) == Pow2(g)
  }

  lemma TreeEnds(s: Merge, used: set<nat>, elems: nat, n: nat, D: seq<nat>)
    requires MergeOk(s, used, elems, n) && |s.q| == 1 && Depths(D, [s.q[0]] + s.H, s.dad, |s.H| + 1)
    ensures Alive(s.q) == {s.q[0]} && |D| == |s.freq| && s.q[0] < |D| && D[s.q[0]] == 0
    ensures forall x :: x in used ==> x < |D|
  {
    hide Counted, Sons, DepthAt;
  }

  lemma TreeBest(s: Merge, used: set<nat>, f: seq<nat>, elems: nat, n: nat, inner: nat, D: seq<nat>)
    requires MergeOk(s, used, elems, n) && |s.q| == 1 && Depths(D, [s.q[0]] + s.H, s.dad, |s.H| + 1)
    requires Best(s, used, f, elems, inner)
    ensures BestDepths(used, f, D)
  {
    hide MergeOk, Depths, AllDeep, Alive, Opt.Cost, Opt.Total, Opt.Places, Lower, AtMost;
    ListDeep(s, used, elems, n, D);
    TreeEnds(s, used, elems, n, D);
    var g := Deepest(D);
    Opt.RootAlone(s.freq, D, g, s.q[0]);
    assert Opt.Cost(used, f, D) == inner;
    WithinAll(used, D, g);
    assert Opt.Prefix(used, D, g);
    forall L: seq<nat>, k: nat | |L| == |f| && Opt.Prefix(used, L, k) ensures inner <= Opt.Cost(used, f, L) {
      NoneCheaper(s, used, f, inner, L, k);
    }
  }

  lemma WithinAll(used: set<nat>, D: seq<nat>, g: nat)
    requires AtMost(D, g) && forall x :: x in used ==> x < |D|
    ensures forall x :: x in used ==> D[x] <= g
  {
  }

  lemma NoneCheaper(s: Merge, used: set<nat>, f: seq<nat>, inner: nat, L: seq<nat>, g: nat)
    requires Lower(s, used, f, inner) && |L| == |f| && Opt.Prefix(used, L, g)
    ensures inner <= Opt.Cost(used, f, L)
  {
    hide Opt.Cost, Opt.Prefix;
    assert Cheap(s, g, Opt.Cost(used, f, L) - inner);
  }

  /** If no symbol lies deeper than max, nothing does. */
  lemma {:induction false} InnerWithin(s: Merge, used: set<nat>, elems: nat, D: seq<nat>, max: nat, t: nat)
    requires AllDeep(s.H, D, elems) && t < |s.H| / 2 && |s.H| == 2 * (s.node - elems)
    requires forall i :: 0 <= i < |s.H| ==> s.H[i] in used || elems <= s.H[i]
    requires forall k :: 0 <= k < |s.H| / 2 ==> s.H[|s.H| - 1 - 2 * k] < elems + k
    requires forall x :: x in used ==> x < |D| && D[x] <= max
    ensures elems + t < |D| && D[elems + t] <= max
    decreases t
  {
    assert SonsDeep(s.H, D, elems, t);
    var b := s.H[|s.H| - 1 - 2 * t];
    if b >= elems {
      InnerWithin(s, used, elems, D, max, b - elems);
    }
  }

  lemma AllWithin(s: Merge, used: set<nat>, elems: nat, n: nat, D: seq<nat>, max: nat)
    requires MergeOk(s, used, elems, n) && |s.q| == 1 && Depths(D, [s.q[0]] + s.H, s.dad, |s.H| + 1)
    requires forall x :: x in used ==> x < |D| && D[x] <= max
    ensures Within(D, [s.q[0]] + s.H, max)
  {
    ListDeep(s, used, elems, n, D);
    RootLast(s, used, elems, n);
    var H := [s.q[0]] + s.H;
    forall i | 0 <= i < |s.H| ensures s.H[i] in used || elems <= s.H[i] < s.node {
      assert s.H[i] in multiset(s.H);
      assert multiset(s.q)[s.H[i]] + multiset(s.H)[s.H[i]] > 0;
    }
    forall k | 0 <= k < |s.H| / 2 ensures s.H[|s.H| - 1 - 2 * k] < elems + k {
      assert Sons(s.H, s.dad, elems, k);
    }
    forall j | 0 <= j < |H| ensures H[j] < |D| && D[H[j]] <= max {
      if H[j] !in used {
        InnerWithin(s, used, elems, D, max, H[j] - elems);
      }
    }
  }

  // The whole of build_tree.

  ghost function UsedSet(freq: seq<nat>, elems: nat): set<nat>
    requires elems <= |freq|
  {
    set n: nat | n < elems && freq[n] > 0
  }

  lemma FirstMerge(q: seq<nat>, freq: seq<nat>, depth: seq<nat>, dad: seq<nat>, elems: nat)
    requires Heaped(q, freq, elems) && |freq| == |depth| == |dad| == 2 * elems + 1 && |q| >= 2
    ensures MergeOk(Merge(q, [], freq, depth, dad, elems), UsedSet(freq, elems), elems, |q|)
  {
    HeapBound(q, freq, elems);
    var used := UsedSet(freq, elems);
    forall id: nat ensures multiset(q)[id] + multiset([])[id] == if id in used || elems <= id < elems then 1 else 0 {
    }
  }

  lemma HeapBound(q: seq<nat>, freq: seq<nat>, elems: nat)
    requires Heaped(q, freq, elems)
    ensures |q| <= elems
  {
    forall j, k | 0 <= j < k < |q| ensures q[j] != q[k] {
      if q[j] == q[k] {
        TwiceIn(q, j, k);
      }
    }
    LeafBound(q, elems);
    AllLeaves(q, elems, |q|);
  }

  lemma {:induction false} AllLeaves(q: seq<nat>, elems: nat, h: nat)
    requires Below(q, elems) && h <= |q|
    ensures LeafCount(q, elems, h) == h
  {
    if h > 0 {
      AllLeaves(q, elems, h - 1);
    }
  }

  lemma HeapedPerm(q: seq<nat>, r: seq<nat>, freq: seq<nat>, n: nat)
    requires Heaped(q, freq, n) && multiset(r) == multiset(q)
    ensures Heaped(r, freq, n) && |r| == |q|
  {
    PermBelow(q, r, n);
    assert |r| == |multiset(r)| == |multiset(q)| == |q|;
  }

  /** The first order of the heap: all sub-heaps from the smallest up. */
  method Heapify(q0: seq<nat>, freq: seq<nat>, depth: seq<nat>, elems: nat) returns (q: seq<nat>)
    requires Heaped(q0, freq, elems) && |depth| == |freq|
    ensures Heaped(q, freq, elems) && |q| == |q0| && Nodes(q, freq, depth) && Heap(q, freq, depth, 1)
  {
    q := q0;
    var n := |q| / 2;
    HeapedBelow(q, freq, elems);
    LeavesHeap(q, freq, depth);
    hide Heaped, Heap;
    while n >= 1
      invariant 0 <= n <= |q| == |q0| && Heaped(q, freq, elems) && Nodes(q, freq, depth) && Heap(q, freq, depth, n + 1)
    {
      var r := PqDownHeap(q, freq, depth, n);
      HeapedPerm(q, r, freq, elems);
      q := r;
      n := n - 1;
    }
  }

  lemma LeavesHeap(q: seq<nat>, freq: seq<nat>, depth: seq<nat>)
    requires Nodes(q, freq, depth)
    ensures Heap(q, freq, depth, |q| / 2 + 1)
  {
  }

  lemma HeapedBelow(q: seq<nat>, freq: seq<nat>, n: nat)
    requires Heaped(q, freq, n)
    ensures Below(q, |freq|)
  {
  }

  /** No code of these symbols is cheaper than lens. */
  ghost predicate Cheapest(freq: seq<nat>, elems: nat, lens: seq<nat>)
    requires |lens| == elems <= |freq|
  {
    Opt.Optimal(UsedSet(freq, elems), freq, lens + Zero(|freq| - elems))
  }

  /** All symbols in use lie within max. */
  predicate Shallow(freq: seq<nat>, elems: nat, depths: seq<nat>, max: nat) {
    forall n :: 0 <= n < elems && n < |freq| && freq[n] > 0 ==> n < |depths| && depths[n] <= max
  }

  /**
   * build_tree: every symbol with a frequency gets a length of 1 to max, the lengths make a
   * complete code, and the codes are the canonical ones. The depths of the tree cost as little as
   * any code does, if the frequencies together fit sixteen bits; unless one is above max they are the lengths.
   */
  method BuildTree(freq0: seq<nat>, elems: nat, max: nat)
    returns (freq: seq<nat>, lens: seq<nat>, codes: seq<nat>, ghost depths: seq<nat>)
    requires |freq0| == 2 * elems + 1 && 3 <= elems <= L_CODES && 1 <= max <= MAX_BITS && elems <= Pow2(max)
    ensures Forced(freq0, freq) && |lens| == elems && LensOk(lens)
    ensures forall i, j :: 0 <= i < j < elems && freq0[i] > 0 && freq0[j] > 0 ==> freq == freq0
    ensures forall n :: 0 <= n < elems ==> if freq[n] > 0 then 1 <= lens[n] <= max else lens[n] == 0
    ensures Complete(lens) && Fits(Counts(lens))
    ensures |codes| == elems && forall n :: 0 <= n < elems && lens[n] > 0 ==> codes[n] == Num(Code(lens, n))
    ensures Opt.Weight(UsedSet(freq, elems), freq) < 0x1_0000 ==> BestDepths(UsedSet(freq, elems), freq, depths)
    ensures Opt.Weight(UsedSet(freq, elems), freq) < 0x1_0000 && Shallow(freq, elems, depths, max) ==>
      Cheapest(freq, elems, lens)
  {
    hide Heaped, Heap, Nodes, Joins, MergeOk, NodeList, LeafCount, Lengths, Start, Fits, Complete, Code, Num, Counts,
         ListOk, UsedSet, Top, Forced, Pow2, Best, BestDepths, Shallow, Cheapest, Opt.Weight, Depths, Within, AtDepth;
    var q, maxCode := Used(freq0, elems);
    TwoUsed(q, freq0, elems);
    q, freq, maxCode := Force(q, freq0, elems, maxCode);
    ForcedSize(freq0, freq);
    var depth := Zero(2 * elems + 1);
    q := Heapify(q, freq, depth, elems);
    var s := Merge(q, [], freq, depth, Zero(2 * elems + 1), elems);
    ghost var used, inner: nat := UsedSet(freq, elems), 0;
    FirstMerge(q, freq, depth, s.dad, elems);
    HeapedAlive(q, freq, elems);
    FirstBest(s, used, elems);
    ghost var n := |q|;
    Space(s, used, elems, n);
    while |s.q| >= 2
      invariant MergeOk(s, used, elems, n) && HeapOk(s) && |s.q| >= 1 && s.node >= elems && SpaceOk(s)
      invariant Opt.Weight(used, freq) < 0x1_0000 ==> Best(s, used, freq, elems, inner)
      decreases |s.q|
    {
      ghost var before, a, b := s, 0, 0;
      s, a, b := MergeTwo(s, used, elems, n);
      Space(s, used, elems, n);
      if Opt.Weight(used, freq) < 0x1_0000 {
        BestAfter(before, s, used, freq, elems, n, inner, a, b);
        inner := inner + before.freq[a] + before.freq[b];
      }
    }
    var H := [s.q[0]] + s.H;
    FinalList(s, used, elems, n);
    LeafBound(H, elems);
    var bl: seq<nat>;
    lens, bl, depths := GenBitlen(H, s.dad, elems, s.node - elems, max);
    LengthsFit(H, elems, bl, max, lens);
    UsedHave(H, freq, elems, bl, max, lens);
    if Opt.Weight(used, freq) < 0x1_0000 {
      TreeBest(s, used, freq, elems, n, inner, depths);
      LensBest(s, freq, elems, n, depths, max, lens);
    }
    codes := GenCodes(lens, bl);
  }

  lemma HeapedAlive(q: seq<nat>, freq: seq<nat>, elems: nat)
    requires Heaped(q, freq, elems)
    ensures Alive(q) == UsedSet(freq, elems)
  {
    forall x: nat ensures x in q <==> x in UsedSet(freq, elems) {
      assert x in q <==> multiset(q)[x] > 0;
    }
  }

  lemma LensBest(s: Merge, freq: seq<nat>, elems: nat, n: nat, D: seq<nat>, max: nat, lens: seq<nat>)
    requires elems <= |freq| && MergeOk(s, UsedSet(freq, elems), elems, n) && |s.q| == 1 && |lens| == elems
    requires Depths(D, [s.q[0]] + s.H, s.dad, |s.H| + 1) && BestDepths(UsedSet(freq, elems), freq, D)
    requires Within(D, [s.q[0]] + s.H, max) ==> AtDepth([s.q[0]] + s.H, elems, D, lens)
    requires forall x :: 0 <= x < elems ==> (x in [s.q[0]] + s.H <==> x in UsedSet(freq, elems))
    ensures Shallow(freq, elems, D, max) ==> Cheapest(freq, elems, lens)
  {
    hide MergeOk, Depths, Within, Opt.Cost, Opt.Prefix, Opt.Total, Opt.Places;
    var used, H := UsedSet(freq, elems), [s.q[0]] + s.H;
    if Shallow(freq, elems, D, max) {
      AllWithin(s, used, elems, n, D, max);
      var padded := lens + Zero(|freq| - elems);
      forall x | x in used ensures padded[x] == D[x] {
        var j :| 0 <= j < |H| && H[j] == x;
        assert lens[H[j]] == D[H[j]];
      }
      Opt.SameCost(used, freq, D, padded);
    }
  }

  /** The heap and the list of merged nodes do not meet in the array they share. */
  predicate SpaceOk(s: Merge) { |s.q| + |s.H| + 2 <= HEAP_SIZE }

  lemma Space(s: Merge, used: set<nat>, elems: nat, n: nat)
    requires MergeOk(s, used, elems, n) && elems <= L_CODES
    ensures SpaceOk(s) && s.node >= elems
  {
  }

  lemma ForcedSize(f: seq<nat>, f2: seq<nat>)
    requires Forced(f, f2)
    ensures |f2| == |f|
  {
  }

  lemma UsedHave(H: seq<nat>, freq: seq<nat>, elems: nat, bl: seq<nat>, max: nat, lens: seq<nat>)
    requires elems <= |freq| && Lengths(H, elems, bl, max, lens)
    requires forall x :: 0 <= x < elems ==> (x in H <==> x in UsedSet(freq, elems))
    ensures |lens| == elems && forall n :: 0 <= n < elems ==> if freq[n] > 0 then 1 <= lens[n] <= max else lens[n] == 0
  {
  }
}
