/** gen_bitlen: code lengths from a Huffman tree, limited to max bits with nothing of the code space lost. */
module HuffmanLengths {
  import opened Arith
  import opened Bits
  import opened HuffmanCodes

  // The nodes of a tree, in the order in which build_tree leaves them.

  /** Brothers i stand behind each other, their father is the i-th node from the root downwards. */
  predicate Brothers(H: seq<nat>, dad: seq<nat>, elems: nat, p: nat, i: nat)
    requires i < p && |H| == 2 * p + 1 && forall j :: 0 <= j < |H| ==> H[j] < |dad|
  {
    var d := elems + p - 1 - i;
    dad[H[2 * i + 1]] == d && dad[H[2 * i + 2]] == d && H[2 * i + 1] < d && H[2 * i + 2] < d
  }

  /** The root and then p pairs of brothers: leaves below elems, inner nodes from elems on. */
  predicate NodeList(H: seq<nat>, dad: seq<nat>, elems: nat, p: nat) {
    && p >= 1 && |H| == 2 * p + 1 && elems + p <= |dad| && H[0] == elems + p - 1
    && (forall j :: 0 <= j < |H| ==> H[j] < elems + p)
    && (forall j, k :: 0 <= j < k < |H| ==> H[j] != H[k])
    && (forall i :: 0 <= i < p ==> Brothers(H, dad, elems, p, i))
    && (forall id :: elems <= id < elems + p ==> id in H)
  }

  lemma SonBelow(H: seq<nat>, dad: seq<nat>, elems: nat, p: nat, j: nat)
    requires NodeList(H, dad, elems, p) && 0 < j < |H|
    ensures H[j] < dad[H[j]] == elems + p - 1 - (j - 1) / 2
  {
    var i := (j - 1) / 2;
    assert j == 2 * i + 1 || j == 2 * i + 2;
    assert Brothers(H, dad, elems, p, i);
  }

  /** The father of brothers i comes before them. */
  lemma FatherFirst(H: seq<nat>, dad: seq<nat>, elems: nat, p: nat, i: nat) returns (j: nat)
    requires NodeList(H, dad, elems, p) && i < p
    ensures j <= 2 * i && H[j] == elems + p - 1 - i
  {
    var d := elems + p - 1 - i;
    assert d in H;
    j :| 0 <= j < |H| && H[j] == d;
    if j > 0 {
      SonBelow(H, dad, elems, p, j);
    }
  }

  // How deep the nodes lie.

  predicate DepthAt(D: seq<nat>, H: seq<nat>, dad: seq<nat>, j: nat)
    requires j < |H|
  {
    H[j] < |D| == |dad| && dad[H[j]] < |D| && D[H[j]] == D[dad[H[j]]] + 1
  }

  /** The root lies at depth 0 and each of the first h nodes one below its father. */
  predicate Depths(D: seq<nat>, H: seq<nat>, dad: seq<nat>, h: nat) {
    && |D| == |dad| && 0 < h <= |H| && H[0] < |D| && D[H[0]] == 0
    && forall j :: 0 < j < h ==> DepthAt(D, H, dad, j)
  }

  lemma {:induction false} DepthsOf(H: seq<nat>, dad: seq<nat>, elems: nat, p: nat, h: nat) returns (D: seq<nat>)
    requires NodeList(H, dad, elems, p) && 0 < h <= |H|
    ensures Depths(D, H, dad, h)
  {
    if h == 1 {
      D := Zero(|dad|);
    } else {
      var D1 := DepthsOf(H, dad, elems, p, h - 1);
      SonBelow(H, dad, elems, p, h - 1);
      D := D1[H[h - 1] := D1[dad[H[h - 1]]] + 1];
      forall j | 0 < j < h ensures DepthAt(D, H, dad, j) {
        SonBelow(H, dad, elems, p, j);
        if j < h - 1 {
          assert DepthAt(D1, H, dad, j);
          var k := FatherFirst(H, dad, elems, p, (j - 1) / 2);
          assert H[k] != H[h - 1] && H[j] != H[h - 1];
        }
      }
    }
  }

  predicate Within(D: seq<nat>, H: seq<nat>, max: nat) { forall j :: 0 <= j < |H| ==> H[j] < |D| && D[H[j]] <= max }

  // Sums over the inner nodes that still wait for their sons.

  function Sum(V: seq<nat>, lo: nat, hi: nat): (n: nat)
    requires lo <= hi <= |V|
  {
    if lo == hi then 0 else Sum(V, lo, hi - 1) + V[hi - 1]
  }

  /** How many of them are at the limit, with weight one. */
  function Ones(V: seq<nat>, lo: nat, hi: nat): (n: nat)
    requires lo <= hi <= |V|
  {
    if lo == hi then 0 else Ones(V, lo, hi - 1) + if V[hi - 1] == 1 then 1 else 0
  }

  lemma {:induction false} SumSet(V: seq<nat>, lo: nat, hi: nat, n: nat, x: nat)
    requires lo <= hi <= |V| && n < |V| && V[n] == 0
    ensures Sum(V[n := x], lo, hi) == Sum(V, lo, hi) + if lo <= n < hi then x else 0
    ensures Ones(V[n := x], lo, hi) == Ones(V, lo, hi) + if lo <= n < hi && x == 1 then 1 else 0
  {
    if lo < hi {
      SumSet(V, lo, hi - 1, n, x);
    }
  }

  lemma {:induction false} StartSet(c: seq<nat>, g: nat, k: nat, b: nat)
    requires 1 <= b < |c| && k <= g + 1 && k <= |c|
    ensures Start(c[b := c[b] + 1], g, k) == Start(c, g, k) + if b < k then Pow2(g - b) else 0
  {
    if k > 1 {
      StartSet(c, g, k - 1, b);
      if b == k - 1 {
        Distribute(c[b], 1, Pow2(g - b));
      }
    }
  }

  lemma {:induction false} CntSet(s: seq<nat>, i: nat, x: nat, k: nat)
    requires i < |s|
    ensures Cnt(s[i := x], k) + (if s[i] == k then 1 else 0) == Cnt(s, k) + if x == k then 1 else 0
  {
    var m := |s| - 1;
    if i < m {
      assert s[i := x][..m] == s[..m][i := x];
      CntSet(s[..m], i, x, k);
    } else {
      assert s[i := x][..m] == s[..m];
    }
  }

  lemma {:induction false} OffSet(bl: seq<nat>, k: nat, b: nat, x: nat)
    requires 1 <= b < |bl| && k <= |bl|
    ensures Off(bl[b := x], k) == Off(bl, k) + if b < k then x - bl[b] else 0
  {
    if k > 1 {
      OffSet(bl, k - 1, b, x);
    }
  }

  /** How many of the first h nodes are leaves. */
  function LeafCount(H: seq<nat>, elems: nat, h: nat): (n: nat)
    requires h <= |H|
  {
    if h == 0 then 0 else LeafCount(H, elems, h - 1) + if H[h - 1] < elems then 1 else 0
  }

  // The first pass: lengths from the fathers' lengths, cut off at max.

  /** bl counts the lengths given out, lens has them by symbol, V the weights of the inner nodes. */
  datatype Pass = Pass(dl: seq<nat>, bl: seq<nat>, overflow: nat, lens: seq<nat>, V: seq<nat>)

  predicate PassOk(s: Pass, size: nat, elems: nat, p: nat, max: nat) {
    && |s.dl| == size && elems + p <= size && |s.bl| == MAX_BITS + 1 && |s.lens| == elems && |s.V| == elems + p
    && 1 <= max <= MAX_BITS && s.bl[0] == 0
    && (forall b :: 1 <= b <= MAX_BITS ==> s.bl[b] == Cnt(s.lens, b))
  }

  /** Everything given out and waiting, below father d, in units of 2^-max. */
  function Weight(s: Pass, elems: nat, max: nat, d: nat): nat
    requires |s.bl| == MAX_BITS + 1 && max <= MAX_BITS && elems <= d <= |s.V|
  {
    Start(s.bl, max, max + 1) + Sum(s.V, elems, d)
  }

  function AtMax(s: Pass, elems: nat, max: nat, d: nat): nat
    requires |s.bl| == MAX_BITS + 1 && max <= MAX_BITS && elems <= d <= |s.V|
  {
    s.bl[max] + Ones(s.V, elems, d)
  }

  /** Node n gets length b. */
  function Assign(s: Pass, elems: nat, max: nat, n: nat, b: nat): Pass
    requires n < |s.dl| && b < |s.bl| && n < |s.V| && |s.lens| == elems && b <= max
  {
    if n < elems then s.(dl := s.dl[n := b], bl := s.bl[b := s.bl[b] + 1], lens := s.lens[n := b])
    else s.(dl := s.dl[n := b], V := s.V[n := Pow2(max - b)])
  }

  predicate Unassigned(s: Pass, elems: nat, n: nat)
  {
    && n < |s.dl| && n < |s.V| && |s.lens| == elems
    && if n < elems then s.lens[n] == 0 else s.V[n] == 0
  }

  lemma AssignAdds(s: Pass, size: nat, elems: nat, p: nat, max: nat, d: nat, n: nat, b: nat)
    requires PassOk(s, size, elems, p, max) && Unassigned(s, elems, n) && n < d && elems <= d <= elems + p
    requires 1 <= b <= max
    ensures PassOk(Assign(s, elems, max, n, b), size, elems, p, max)
    ensures Weight(Assign(s, elems, max, n, b), elems, max, d) == Weight(s, elems, max, d) + Pow2(max - b)
    ensures AtMax(Assign(s, elems, max, n, b), elems, max, d) == AtMax(s, elems, max, d) + if b == max then 1 else 0
  {
    hide Start, Sum, Ones, Cnt, Pow2;
    if n < elems {
      StartSet(s.bl, max, max + 1, b);
      forall k | 1 <= k <= MAX_BITS ensures Cnt(s.lens[n := b], k) == Cnt(s.lens, k) + if k == b then 1 else 0 {
        CntSet(s.lens, n, b, k);
      }
    } else {
      SumSet(s.V, elems, d, n, Pow2(max - b));
      OneIff(max - b);
    }
  }

  lemma OneIff(k: nat)
    ensures Pow2(k) == 1 <==> k == 0
  {
  }

  /** The first h nodes of H have their lengths. */
  predicate Reached(s: Pass, H: seq<nat>, dad: seq<nat>, elems: nat, max: nat, h: nat)
    requires (forall j :: 0 <= j < |H| ==> H[j] < |s.dl| && H[j] < |s.V| && H[j] < |dad|) && |s.lens| == elems
  {
    && (forall j :: h <= j < |H| ==> s.dl[H[j]] == dad[H[j]] && Unassigned(s, elems, H[j]))
    && (forall j :: 0 <= j < h && j < |H| ==> Given(s, elems, max, H[j], j))
    && (forall n :: 0 <= n < elems && n !in H ==> s.lens[n] == 0)
  }

  /** The node at position j has a length and counts with it; only the root has length zero. */
  predicate Given(s: Pass, elems: nat, max: nat, n: nat, j: nat)
    requires n < |s.dl| && n < |s.V| && |s.lens| == elems
  {
    && s.dl[n] <= max && (j > 0 ==> s.dl[n] > 0)
    && if n < elems then s.lens[n] == s.dl[n] else s.V[n] == Pow2(max - s.dl[n])
  }

  predicate Frame(s: Pass, H: seq<nat>, dad: seq<nat>, elems: nat, p: nat, max: nat) {
    && NodeList(H, dad, elems, p) && PassOk(s, |dad|, elems, p, max)
  }

  lemma AssignReaches(s: Pass, H: seq<nat>, dad: seq<nat>, elems: nat, p: nat, max: nat, h: nat, b: nat)
    requires Frame(s, H, dad, elems, p, max) && Reached(s, H, dad, elems, max, h) && 0 < h < |H| && 1 <= b <= max
    requires PassOk(Assign(s, elems, max, H[h], b), |dad|, elems, p, max)
    ensures Reached(Assign(s, elems, max, H[h], b), H, dad, elems, max, h + 1)
  {
    hide Pow2, Cnt;
    var n := H[h];
    var s2 := Assign(s, elems, max, n, b);
    forall j | h + 1 <= j < |H| ensures s2.dl[H[j]] == dad[H[j]] && Unassigned(s2, elems, H[j]) {
      assert H[h] != H[j];
      assert Unassigned(s, elems, H[j]);
    }
    forall j | 0 <= j < h + 1 && j < |H| ensures Given(s2, elems, max, H[j], j) {
      if j < h {
        assert H[j] != H[h];
        assert Given(s, elems, max, H[j], j);
      }
    }
  }

  /** The length a son gets from a father of length q. */
  function SonLength(q: nat, max: nat): nat { if q + 1 > max then max else q + 1 }

  /** The length of one node, from its father's. */
  method GiveLength(s: Pass, H: seq<nat>, ghost dad: seq<nat>, elems: nat, ghost p: nat, max: nat, h: nat, ghost d: nat)
    returns (s2: Pass)
    requires Frame(s, H, dad, elems, p, max) && Reached(s, H, dad, elems, max, h) && 0 < h < |H|
    requires d == dad[H[h]] && H[h] < d && elems <= d < elems + p && s.dl[d] <= max
    ensures Frame(s2, H, dad, elems, p, max) && Reached(s2, H, dad, elems, max, h + 1)
    ensures var b := SonLength(s.dl[d], max);
      && b <= max
      && Weight(s2, elems, max, d) == Weight(s, elems, max, d) + Pow2(max - b)
      && AtMax(s2, elems, max, d) == AtMax(s, elems, max, d) + (if b == max then 1 else 0)
      && s2.overflow == s.overflow + (if s.dl[d] == max then 1 else 0)
      && s2.dl[d] == s.dl[d] && s2.V[d] == s.V[d]
      && s2.dl == s.dl[H[h] := b]
    ensures Off(s2.bl, max + 1) - Off(s.bl, max + 1) == LeafCount(H, elems, h + 1) - LeafCount(H, elems, h)
  {
    hide Pow2, NodeList, PassOk, Reached, Weight, AtMax, Off, LeafCount;
    NextNode(s, H, dad, elems, p, max, h);
    var n := H[h];
    var bits, overflow := s.dl[s.dl[n]] + 1, s.overflow;
    if bits > max {
      bits, overflow := max, overflow + 1;
    }
    AssignAdds(s, |dad|, elems, p, max, d, n, bits);
    AssignReaches(s, H, dad, elems, p, max, h, bits);
    LeafTotal(s, H, elems, max, h, bits);
    OverflowOnly(Assign(s, elems, max, n, bits), H, dad, elems, p, max, h + 1, d, overflow);
    if n < elems {
      s2 := Pass(s.dl[n := bits], s.bl[bits := s.bl[bits] + 1], overflow, s.lens[n := bits], s.V);
    } else {
      s2 := Pass(s.dl[n := bits], s.bl, overflow, s.lens, s.V[n := Pow2(max - bits)]);
    }
    assert s2 == Assign(s, elems, max, n, bits).(overflow := overflow);
  }

  lemma NextNode(s: Pass, H: seq<nat>, dad: seq<nat>, elems: nat, p: nat, max: nat, h: nat)
    requires Frame(s, H, dad, elems, p, max) && Reached(s, H, dad, elems, max, h) && h < |H|
    ensures var n := H[h]; n < |s.dl| == |dad| && n < |s.V| && s.dl[n] == dad[n] && Unassigned(s, elems, n)
    ensures |s.bl| == MAX_BITS + 1 && |s.V| == elems + p && 1 <= max <= MAX_BITS && |s.lens| == elems
            && elems + p <= |dad|
  {
  }

  lemma LeafTotal(s: Pass, H: seq<nat>, elems: nat, max: nat, h: nat, b: nat)
    requires h < |H| && H[h] < |s.dl| && H[h] < |s.V| && |s.lens| == elems && |s.bl| == MAX_BITS + 1
    requires 1 <= b <= max <= MAX_BITS
    ensures Off(Assign(s, elems, max, H[h], b).bl, max + 1) - Off(s.bl, max + 1)
         == LeafCount(H, elems, h + 1) - LeafCount(H, elems, h)
  {
    OffSet(s.bl, max + 1, b, s.bl[b] + 1);
  }

  /** The overflow count is none of the rest's business. */
  lemma OverflowOnly(s: Pass, H: seq<nat>, dad: seq<nat>, elems: nat, p: nat, max: nat, h: nat, d: nat, o: nat)
    requires Frame(s, H, dad, elems, p, max) && Reached(s, H, dad, elems, max, h) && elems <= d <= elems + p
    ensures var s2 := s.(overflow := o);
      && Frame(s2, H, dad, elems, p, max) && Reached(s2, H, dad, elems, max, h)
      && Weight(s2, elems, max, d) == Weight(s, elems, max, d) && AtMax(s2, elems, max, d) == AtMax(s, elems, max, d)
  {
  }

  /** Every two overflows account for one place too many, and for a code at the limit. */
  predicate Balance(s: Pass, elems: nat, max: nat, top: nat)
    requires |s.bl| == MAX_BITS + 1 && max <= MAX_BITS && elems <= top <= |s.V|
  {
    && s.overflow % 2 == 0
    && 2 * Weight(s, elems, max, top) == 2 * Pow2(max) + s.overflow
    && 2 * AtMax(s, elems, max, top) >= s.overflow
  }

  /** If no node lies deeper than max, the first h nodes have their depths for lengths and there is no overflow. */
  predicate Tracks(s: Pass, H: seq<nat>, D: seq<nat>, max: nat, h: nat)
    requires h <= |H|
  {
    Within(D, H, max) ==> s.overflow == 0 && forall j :: 0 <= j < h ==> H[j] < |s.dl| && s.dl[H[j]] == D[H[j]]
  }

  lemma StartTracks(s: Pass, H: seq<nat>, dad: seq<nat>, D: seq<nat>, max: nat)
    requires Depths(D, H, dad, |H|) && s.overflow == 0 && H[0] < |s.dl| && s.dl[H[0]] == 0
    ensures Tracks(s, H, D, max, 1)
  {
  }

  lemma TracksPair(s: Pass, s2: Pass, H: seq<nat>, dad: seq<nat>, D: seq<nat>, elems: nat, p: nat, max: nat, i: nat)
    requires NodeList(H, dad, elems, p) && i < p && Depths(D, H, dad, |H|) && Tracks(s, H, D, max, 2 * i + 1)
    requires |s.dl| == |dad| && PairOf(s, s2, H, elems, p, max, i)
    ensures Tracks(s2, H, D, max, 2 * i + 3)
  {
    var d, h := elems + p - 1 - i, 2 * i + 1;
    var k := FatherFirst(H, dad, elems, p, i);
    SonBelow(H, dad, elems, p, h);
    SonBelow(H, dad, elems, p, h + 1);
    assert DepthAt(D, H, dad, h) && DepthAt(D, H, dad, h + 1);
    hide NodeList, Depths;
    if Within(D, H, max) {
      assert s.dl[H[k]] == D[H[k]] && D[H[h]] == D[d] + 1 <= max;
      forall j | 0 <= j < h + 2 ensures H[j] < |s2.dl| && s2.dl[H[j]] == D[H[j]] {
      }
    }
  }

  /** Brothers i have got their length from their father. */
  predicate PairOf(s: Pass, s2: Pass, H: seq<nat>, elems: nat, p: nat, max: nat, i: nat)
    requires i < p && |H| == 2 * p + 1
  {
    var d, a, b := elems + p - 1 - i, H[2 * i + 1], H[2 * i + 2];
    && d < |s.dl| && a < |s.dl| && b < |s.dl|
    && s2.dl == s.dl[a := SonLength(s.dl[d], max)][b := SonLength(s.dl[d], max)]
    && s2.overflow == s.overflow + if s.dl[d] == max then 2 else 0
  }

  method FirstPass(H: seq<nat>, dad: seq<nat>, elems: nat, p: nat, max: nat) returns (s: Pass, ghost D: seq<nat>)
    requires NodeList(H, dad, elems, p) && 1 <= max <= MAX_BITS
    ensures Frame(s, H, dad, elems, p, max) && Reached(s, H, dad, elems, max, |H|)
    ensures Balance(s, elems, max, elems) && Off(s.bl, max + 1) == LeafCount(H, elems, |H|)
    ensures Depths(D, H, dad, |H|) && Tracks(s, H, D, max, |H|)
  {
    hide Pow2, NodeList, Balance, Weight, AtMax, PassOk, Reached, Off, LeafCount, Depths, Tracks, PairOf;
    s := StartPass(H, dad, elems, p, max);
    D := DepthsOf(H, dad, elems, p, |H|);
    StartTracks(s, H, dad, D, max);
    var h := 1;
    ghost var i: nat := 0;
    SizeIs(s, H, dad, elems, p, max);
    while h < |H|
      invariant h == 2 * i + 1 && i <= p && |H| == 2 * p + 1
      invariant |s.bl| == MAX_BITS + 1 && |s.V| == elems + p
      invariant Frame(s, H, dad, elems, p, max) && ReachedAt(s, H, dad, elems, p, max, h)
      invariant Balance(s, elems, max, elems + p - i)
      invariant Off(s.bl, max + 1) == LeafCount(H, elems, h)
      invariant Tracks(s, H, D, max, h)
    {
      ghost var before := s;
      s := GivePair(s, H, dad, elems, p, max, h, i);
      SizeIs(s, H, dad, elems, p, max);
      DlSize(before, H, dad, elems, p, max);
      TracksPair(before, s, H, dad, D, elems, p, max, i);
      h, i := h + 2, i + 1;
    }
  }

  predicate ReachedAt(s: Pass, H: seq<nat>, dad: seq<nat>, elems: nat, p: nat, max: nat, h: nat) {
    Frame(s, H, dad, elems, p, max) && Reached(s, H, dad, elems, max, h)
  }

  lemma DlSize(s: Pass, H: seq<nat>, dad: seq<nat>, elems: nat, p: nat, max: nat)
    requires Frame(s, H, dad, elems, p, max)
    ensures |s.dl| == |dad| && NodeList(H, dad, elems, p)
  {
  }

  lemma SizeIs(s: Pass, H: seq<nat>, dad: seq<nat>, elems: nat, p: nat, max: nat)
    requires Frame(s, H, dad, elems, p, max)
    ensures |H| == 2 * p + 1 && |s.bl| == MAX_BITS + 1 && |s.V| == elems + p && 1 <= max <= MAX_BITS
  {
  }

  /** Two brothers. */
  method GivePair(s: Pass, H: seq<nat>, ghost dad: seq<nat>, elems: nat, ghost p: nat, max: nat, h: nat, ghost i: nat)
    returns (s2: Pass)
    requires ReachedAt(s, H, dad, elems, p, max, h) && h == 2 * i + 1 && i < p
    requires |s.bl| == MAX_BITS + 1 && |s.V| == elems + p && Balance(s, elems, max, elems + p - i)
    ensures ReachedAt(s2, H, dad, elems, p, max, h + 2)
    ensures |s2.bl| == MAX_BITS + 1 && |s2.V| == elems + p && Balance(s2, elems, max, elems + p - i - 1)
    ensures h + 2 <= |H| && max + 1 <= |s.bl|
    ensures Off(s2.bl, max + 1) - Off(s.bl, max + 1) == LeafCount(H, elems, h + 2) - LeafCount(H, elems, h)
    ensures |H| == 2 * p + 1 && PairOf(s, s2, H, elems, p, max, i)
  {
    hide Pow2, NodeList, Weight, AtMax, Reached, Given, PassOk, Balance, SonLength, Frame, Off, LeafCount;
    ghost var d: nat := elems + p - 1 - i;
    Father(s, H, dad, elems, p, max, h, i);
    SizeIs(s, H, dad, elems, p, max);
    s2 := GiveLength(s, H, dad, elems, p, max, h, d);
    s2 := GiveLength(s2, H, dad, elems, p, max, h + 1, d);
    SizeIs(s2, H, dad, elems, p, max);
    PairBalance(s, s2, elems, max, d);
  }

  lemma PairBalance(s: Pass, s2: Pass, elems: nat, max: nat, d: nat)
    requires |s.bl| == |s2.bl| == MAX_BITS + 1 && 1 <= max <= MAX_BITS && elems <= d < |s.V| == |s2.V| && d < |s.dl|
    requires s.dl[d] <= max && s.V[d] == Pow2(max - s.dl[d]) && Balance(s, elems, max, d + 1)
    requires var b := SonLength(s.dl[d], max);
      && b <= max
      && Weight(s2, elems, max, d) == Weight(s, elems, max, d) + Pow2(max - b) + Pow2(max - b)
      && AtMax(s2, elems, max, d) == AtMax(s, elems, max, d) + (if b == max then 2 else 0)
      && s2.overflow == s.overflow + (if s.dl[d] == max then 2 else 0)
    ensures Balance(s2, elems, max, d)
  {
  }

  lemma Father(s: Pass, H: seq<nat>, dad: seq<nat>, elems: nat, p: nat, max: nat, h: nat, i: nat)
    requires ReachedAt(s, H, dad, elems, p, max, h) && h == 2 * i + 1 && i < p
    ensures var d := elems + p - 1 - i;
      && d < |s.dl| && d < |s.V| && s.dl[d] <= max && s.V[d] == Pow2(max - s.dl[d]) && 1 <= max
      && h + 1 < |H| && H[h] < d && H[h + 1] < d
      && H[h] < |dad| && H[h + 1] < |dad| && dad[H[h]] == d && dad[H[h + 1]] == d
  {
    hide Pow2;
    var j := FatherFirst(H, dad, elems, p, i);
    assert Given(s, elems, max, H[j], j);
    SonBelow(H, dad, elems, p, h);
    SonBelow(H, dad, elems, p, h + 1);
  }

  method StartPass(H: seq<nat>, dad: seq<nat>, elems: nat, p: nat, max: nat) returns (s: Pass)
    requires NodeList(H, dad, elems, p) && 1 <= max <= MAX_BITS
    ensures ReachedAt(s, H, dad, elems, p, max, 1)
    ensures |s.bl| == MAX_BITS + 1 && |s.V| == elems + p && Balance(s, elems, max, elems + p)
    ensures |H| > 1 && Off(s.bl, max + 1) == LeafCount(H, elems, 1)
    ensures s.overflow == 0 && H[0] < |s.dl| && s.dl[H[0]] == 0
  {
    ZeroOff(max + 1);
    var root := H[0];
    var none := Zero(elems + p);
    s := Pass(dad[root := 0], Zero(MAX_BITS + 1), 0, Zero(elems), none[root := Pow2(max)]);
    NoCounts(elems);
    ZeroStart(max, max + 1);
    ZeroSums(elems + p, elems, elems + p);
    SumSet(none, elems, elems + p, root, Pow2(max));
    hide Start, Sum, Ones, Cnt, Pow2;
    assert PassOk(s, |dad|, elems, p, max);
  }

  function Zero(n: nat): (z: seq<nat>)
    ensures |z| == n && forall i :: 0 <= i < n ==> z[i] == 0
  {
    seq(n, _ => 0)
  }

  lemma {:induction false} NoCounts(n: nat)
    ensures forall k :: k > 0 ==> Cnt(Zero(n), k) == 0
  {
    if n > 0 {
      NoCounts(n - 1);
      assert Zero(n)[..n - 1] == Zero(n - 1);
    }
  }

  lemma {:induction false} ZeroStart(g: nat, k: nat)
    requires k <= MAX_BITS + 1 && k <= g + 1
    ensures Start(Zero(MAX_BITS + 1), g, k) == 0
  {
    if k > 1 {
      ZeroStart(g, k - 1);
    }
  }

  lemma {:induction false} ZeroOff(k: nat)
    requires k <= MAX_BITS + 1
    ensures Off(Zero(MAX_BITS + 1), k) == 0
  {
    if k > 1 {
      ZeroOff(k - 1);
    }
  }

  lemma {:induction false} ZeroSums(n: nat, lo: nat, hi: nat)
    requires lo <= hi <= n
    ensures Sum(Zero(n), lo, hi) == 0 && Ones(Zero(n), lo, hi) == 0
  {
    if lo < hi {
      ZeroSums(n, lo, hi - 1);
    }
  }

  // Too many places taken: leaves are moved down until the codes fit exactly.

  lemma {:induction false} StartReplace(c: seq<nat>, g: nat, k: nat, b: nat, x: nat)
    requires 1 <= b < |c| && k <= g + 1 && k <= |c|
    ensures Start(c[b := x], g, k) == Start(c, g, k) + if b < k then (x - c[b]) * Pow2(g - b) else 0
  {
    if k > 1 {
      StartReplace(c, g, k - 1, b, x);
      if b == k - 1 {
        Distribute(x, c[b], Pow2(g - b));
      }
    }
  }

  lemma {:induction false} OnlyAtMax(bl: seq<nat>, g: nat, k: nat)
    requires k <= |bl| && k <= g + 1 && forall b :: 1 <= b < k ==> bl[b] == 0
    ensures Start(bl, g, k) == 0 && Off(bl, k) == 0
  {
    if k > 1 {
      OnlyAtMax(bl, g, k - 1);
    }
  }

  /** With too many places taken, some code is shorter than max. */
  lemma ShorterLeaf(bl: seq<nat>, max: nat) returns (b: nat)
    requires |bl| == MAX_BITS + 1 && 1 <= max <= MAX_BITS
    requires Start(bl, max, max + 1) > Pow2(max) >= Off(bl, max + 1)
    ensures 1 <= b < max && bl[b] > 0
  {
    assert Pow2(0) == 1;
    if forall i :: 1 <= i < max ==> bl[i] == 0 {
      OnlyAtMax(bl, max, max);
    }
    b :| 1 <= b < max && bl[b] > 0;
  }

  predicate Repairing(bl: seq<nat>, overflow: nat, max: nat) {
    && |bl| == MAX_BITS + 1 && 1 <= max <= MAX_BITS && bl[0] == 0
    && overflow % 2 == 0
    && 2 * Start(bl, max, max + 1) == 2 * Pow2(max) + overflow
    && 2 * bl[max] >= overflow
    && Off(bl, max + 1) <= Pow2(max)
    && forall b :: max < b <= MAX_BITS ==> bl[b] == 0
  }

  /** One leaf goes down from level b, with an overflowing leaf as its brother. */
  function Lowered(bl: seq<nat>, max: nat, b: nat): seq<nat>
    requires |bl| == MAX_BITS + 1 && 1 <= b < max <= MAX_BITS && bl[b] > 0 && bl[max] > 0
  {
    var bl1 := bl[b := bl[b] - 1];
    var bl2 := bl1[b + 1 := bl1[b + 1] + 2];
    bl2[max := bl2[max] - 1]
  }

  lemma ByOne(c: seq<nat>, g: nat, b: nat)
    requires 1 <= b <= g < |c|
    ensures c[b] > 0 ==> Start(c[b := c[b] - 1], g, g + 1) == Start(c, g, g + 1) - Pow2(g - b)
    ensures Start(c[b := c[b] + 2], g, g + 1) == Start(c, g, g + 1) + 2 * Pow2(g - b)
  {
    hide Start, Pow2;
    if c[b] > 0 {
      StartReplace(c, g, g + 1, b, c[b] - 1);
    }
    StartReplace(c, g, g + 1, b, c[b] + 2);
  }

  /** Moving a leaf down frees one place of 2^-max. */
  lemma LoweredStart(bl: seq<nat>, max: nat, b: nat)
    requires |bl| == MAX_BITS + 1 && 1 <= b < max <= MAX_BITS && bl[b] > 0 && bl[max] > 0
    ensures Start(Lowered(bl, max, b), max, max + 1) == Start(bl, max, max + 1) - 1
  {
    hide Start, Pow2;
    var bl1 := bl[b := bl[b] - 1];
    var bl2 := bl1[b + 1 := bl1[b + 1] + 2];
    ByOne(bl, max, b);
    ByOne(bl1, max, b + 1);
    ByOne(bl2, max, max);
    Twice(max - b);
    OneIff(max - max);
    assert max - (b + 1) == max - b - 1;
  }

  lemma LoweredTotal(bl: seq<nat>, max: nat, b: nat)
    requires |bl| == MAX_BITS + 1 && 1 <= b < max <= MAX_BITS && bl[b] > 0 && bl[max] > 0
    ensures Off(Lowered(bl, max, b), max + 1) == Off(bl, max + 1)
  {
    hide Off;
    var bl1 := bl[b := bl[b] - 1];
    var bl2 := bl1[b + 1 := bl1[b + 1] + 2];
    OffSet(bl, max + 1, b, bl[b] - 1);
    OffSet(bl1, max + 1, b + 1, bl1[b + 1] + 2);
    OffSet(bl2, max + 1, max, bl2[max] - 1);
  }

  lemma LoweredOk(bl: seq<nat>, overflow: nat, max: nat, b: nat)
    requires Repairing(bl, overflow, max) && overflow > 0 && 1 <= b < max && bl[b] > 0
    ensures bl[max] > 0
    ensures Repairing(Lowered(bl, max, b), overflow - 2, max)
    ensures Off(Lowered(bl, max, b), max + 1) == Off(bl, max + 1)
  {
    hide Start, Off, Pow2;
    LoweredStart(bl, max, b);
    LoweredTotal(bl, max, b);
  }

  method Repair(bl: seq<nat>, overflow: nat, max: nat) returns (fixed: seq<nat>)
    requires Repairing(bl, overflow, max)
    ensures Repairing(fixed, 0, max) && Off(fixed, max + 1) == Off(bl, max + 1)
  {
    hide Start, Off, Pow2;
    fixed := bl;
    var left := overflow;
    while left > 0
      invariant Repairing(fixed, left, max) && Off(fixed, max + 1) == Off(bl, max + 1)
      decreases left
    {
      ghost var some := ShorterLeaf(fixed, max);
      var bits := max - 1;
      while fixed[bits] == 0
        invariant some <= bits < max
        decreases bits
      {
        bits := bits - 1;
      }
      LoweredOk(fixed, left, max, bits);
      ghost var before := fixed;
      fixed := fixed[bits := fixed[bits] - 1];
      fixed := fixed[bits + 1 := fixed[bits + 1] + 2];
      fixed := fixed[max := fixed[max] - 1];
      assert fixed == Lowered(before, max, bits);
      left := left - 2;
    }
  }

  // The second pass: the lengths are given out again, the longest to the leaves at the end of the list.

  predicate ListOk(H: seq<nat>) { forall j, k :: 0 <= j < k < |H| ==> H[j] != H[k] }

  /** What the counts of lengths are with n codes of bits, and all shorter ones, to come. */
  function Made(bl: seq<nat>, bits: nat, n: nat, b: nat): int
    requires b < |bl|
  {
    if b > bits then bl[b] else if b == bits then bl[b] - n else 0
  }

  /** The leaves from h on have their final lengths; made has these alone. */
  predicate Remade(H: seq<nat>, elems: nat, h: nat, bl: seq<nat>, bits: nat, n: nat, max: nat, lens: seq<nat>,
                   made: seq<nat>) {
    && |lens| == |made| == elems && |bl| == MAX_BITS + 1
    && (forall j :: h <= j < |H| && H[j] < elems ==> lens[H[j]] == made[H[j]] && 1 <= made[H[j]] <= max)
    && (forall j :: 0 <= j < h && j < |H| && H[j] < elems ==> made[H[j]] == 0)
    && (forall x :: 0 <= x < elems && x !in H ==> lens[x] == 0 && made[x] == 0)
    && (forall b :: 1 <= b <= MAX_BITS ==> Cnt(made, b) == Made(bl, bits, n, b))
  }

  lemma RemadeLeaf(H: seq<nat>, elems: nat, h: nat, bl: seq<nat>, bits: nat, n: nat, max: nat, lens: seq<nat>,
                   made: seq<nat>)
    requires Remade(H, elems, h + 1, bl, bits, n + 1, max, lens, made) && ListOk(H)
    requires h < |H| && H[h] < elems && 1 <= bits <= max <= MAX_BITS
    ensures Remade(H, elems, h, bl, bits, n, max, lens[H[h] := bits], made[H[h] := bits])
  {
    hide Cnt;
    var m := H[h];
    forall b | 1 <= b <= MAX_BITS ensures Cnt(made[m := bits], b) == Made(bl, bits, n, b) {
      CntSet(made, m, bits, b);
    }
  }

  lemma RemadeInner(H: seq<nat>, elems: nat, h: nat, bl: seq<nat>, bits: nat, n: nat, max: nat, lens: seq<nat>,
                    made: seq<nat>)
    requires Remade(H, elems, h + 1, bl, bits, n, max, lens, made) && h < |H| && H[h] >= elems
    ensures Remade(H, elems, h, bl, bits, n, max, lens, made)
  {
    hide Cnt;
  }

  lemma RemadeLevel(H: seq<nat>, elems: nat, h: nat, bl: seq<nat>, bits: nat, max: nat, lens: seq<nat>, made: seq<nat>)
    requires Remade(H, elems, h, bl, bits, 0, max, lens, made) && 1 <= bits <= MAX_BITS
    ensures Remade(H, elems, h, bl, bits - 1, bl[bits - 1], max, lens, made)
  {
    hide Cnt;
  }

  lemma {:induction false} NoLeaves(H: seq<nat>, elems: nat, h: nat, j: nat)
    requires j < h <= |H| && LeafCount(H, elems, h) == 0
    ensures H[j] >= elems
  {
    if j < h - 1 {
      NoLeaves(H, elems, h - 1, j);
    }
  }

  /** All the leaves of H, and only they, have lengths up to max, as many of each as bl says. */
  predicate Lengths(H: seq<nat>, elems: nat, bl: seq<nat>, max: nat, lens: seq<nat>) {
    && |lens| == elems && |bl| == MAX_BITS + 1
    && (forall b :: 1 <= b <= MAX_BITS ==> Cnt(lens, b) == bl[b])
    && (forall x :: 0 <= x < elems ==> if x in H then 1 <= lens[x] <= max else lens[x] == 0)
  }

  lemma RemadeAll(H: seq<nat>, elems: nat, h: nat, bl: seq<nat>, n: nat, max: nat, lens: seq<nat>, made: seq<nat>)
    requires Remade(H, elems, h, bl, 0, n, max, lens, made) && h <= |H| && LeafCount(H, elems, h) == 0
    ensures Lengths(H, elems, bl, max, lens)
  {
    hide Cnt;
    forall x | 0 <= x < elems
      ensures lens[x] == made[x] && if x in H then 1 <= lens[x] <= max else lens[x] == 0
    {
      if x in H {
        var j :| 0 <= j < |H| && H[j] == x;
        if j < h {
          NoLeaves(H, elems, h, j);
        }
      }
    }
    assert lens == made;
  }

  method Reassign(H: seq<nat>, elems: nat, bl: seq<nat>, max: nat, old_lens: seq<nat>) returns (lens: seq<nat>)
    requires Repairing(bl, 0, max) && Off(bl, max + 1) == LeafCount(H, elems, |H|) && ListOk(H)
    requires |old_lens| == elems && forall x :: 0 <= x < elems && x !in H ==> old_lens[x] == 0
    ensures Lengths(H, elems, bl, max, lens)
  {
    lens := old_lens;
    var h, bits := |H|, max;
    ghost var made := Zero(elems);
    NoCounts(elems);
    assert Remade(H, elems, h, bl, max, bl[max], max, lens, made);
    hide Cnt, Remade, Off, LeafCount, ListOk, Repairing, Lengths;
    while bits != 0
      invariant 0 <= bits <= max <= MAX_BITS && 0 <= h <= |H| && |bl| == MAX_BITS + 1
      invariant Remade(H, elems, h, bl, bits, bl[bits], max, lens, made)
      invariant LeafCount(H, elems, h) == Off(bl, bits + 1)
    {
      h, lens, made := GiveOut(H, elems, h, bl, bits, max, lens, made);
      RemadeLevel(H, elems, h, bl, bits, max, lens, made);
      bits := bits - 1;
    }
    NoOff(bl);
    RemadeAll(H, elems, h, bl, bl[0], max, lens, made);
  }

  lemma NoOff(bl: seq<nat>)
    requires |bl| > 0
    ensures Off(bl, 1) == 0
  {
  }

  lemma LeafBefore(H: seq<nat>, elems: nat, h: nat)
    requires h <= |H| && LeafCount(H, elems, h) > 0
    ensures h > 0 && LeafCount(H, elems, h) == LeafCount(H, elems, h - 1) + if H[h - 1] < elems then 1 else 0
  {
  }

  /** All codes of one length. */
  method GiveOut(H: seq<nat>, elems: nat, h0: nat, bl: seq<nat>, bits: nat, max: nat, lens0: seq<nat>,
                 ghost made0: seq<nat>)
    returns (h: nat, lens: seq<nat>, ghost made: seq<nat>)
    requires 1 <= bits <= max <= MAX_BITS && h0 <= |H| && ListOk(H) && |bl| == MAX_BITS + 1
    requires Remade(H, elems, h0, bl, bits, bl[bits], max, lens0, made0)
    requires LeafCount(H, elems, h0) == Off(bl, bits + 1)
    ensures h <= |H| && Remade(H, elems, h, bl, bits, 0, max, lens, made)
    ensures LeafCount(H, elems, h) == Off(bl, bits)
  {
    hide Cnt, Remade, Off, LeafCount, ListOk;
    h, lens, made := h0, lens0, made0;
    var n := bl[bits];
    OffNext(bl, bits);
    while n != 0
      invariant h <= |H| && Remade(H, elems, h, bl, bits, n, max, lens, made)
      invariant LeafCount(H, elems, h) == Off(bl, bits) + n
      decreases h
    {
      LeafBefore(H, elems, h);
      h := h - 1;
      var m := H[h];
      if m >= elems {
        RemadeInner(H, elems, h, bl, bits, n, max, lens, made);
      } else {
        RemadeLeaf(H, elems, h, bl, bits, n - 1, max, lens, made);
        SameSizes(H, elems, h + 1, bl, bits, n, max, lens, made);
        lens, made := lens[m := bits], made[m := bits];
        n := n - 1;
      }
    }
  }

  lemma SameSizes(H: seq<nat>, elems: nat, h: nat, bl: seq<nat>, bits: nat, n: nat, max: nat, lens: seq<nat>,
                  made: seq<nat>)
    requires Remade(H, elems, h, bl, bits, n, max, lens, made)
    ensures |lens| == |made| == elems
  {
  }

  // The whole of gen_bitlen.

  lemma {:induction false} NoneAbove(lens: seq<nat>, max: nat, b: nat)
    requires b > max && forall x :: 0 <= x < |lens| ==> lens[x] <= max
    ensures Cnt(lens, b) == 0
  {
    if lens != [] {
      NoneAbove(lens[..|lens| - 1], max, b);
    }
  }

  lemma PassLengths(s: Pass, H: seq<nat>, dad: seq<nat>, elems: nat, p: nat, max: nat)
    requires Frame(s, H, dad, elems, p, max) && Reached(s, H, dad, elems, max, |H|)
    ensures Lengths(H, elems, s.bl, max, s.lens)
    ensures forall b :: max < b <= MAX_BITS ==> s.bl[b] == 0
    ensures ListOk(H)
  {
    hide Cnt, Pow2;
    forall x | 0 <= x < elems ensures if x in H then 1 <= s.lens[x] <= max else s.lens[x] == 0 {
      if x in H {
        var j :| 0 <= j < |H| && H[j] == x;
        assert Given(s, elems, max, H[j], j);
      }
    }
    forall b | max < b <= MAX_BITS ensures s.bl[b] == 0 {
      NoneAbove(s.lens, max, b);
    }
  }

  /**
   * gen_bitlen: every leaf of the tree gets a length of at most max, and the lengths
   * take up all the places there are, no more and no less.
   */
  method GenBitlen(H: seq<nat>, dad: seq<nat>, elems: nat, p: nat, max: nat)
    returns (lens: seq<nat>, bl: seq<nat>, ghost D: seq<nat>)
    requires NodeList(H, dad, elems, p) && 1 <= max <= MAX_BITS
    requires LeafCount(H, elems, |H|) <= Pow2(max)
    ensures Lengths(H, elems, bl, max, lens)
    ensures Start(bl, max, max + 1) == Pow2(max) && bl[0] == 0
    ensures forall b :: max < b <= MAX_BITS ==> bl[b] == 0
    ensures Depths(D, H, dad, |H|) && (Within(D, H, max) ==> AtDepth(H, elems, D, lens))
  {
    hide NodeList, LeafCount, Lengths, Start, Off, Pow2, Reached, Balance, Frame, ListOk;
    hide Depths, Within, AtDepth, Tracks;
    var s: Pass;
    s, D := FirstPass(H, dad, elems, p, max);
    LeafDepths(s, H, dad, elems, p, max, D);
    PassLengths(s, H, dad, elems, p, max);
    SizeIs(s, H, dad, elems, p, max);
    CanRepair(s, H, dad, elems, p, max);
    if s.overflow == 0 {
      lens, bl := s.lens, s.bl;
      return;
    }
    bl := Repair(s.bl, s.overflow, max);
    UnusedZero(H, elems, s.bl, max, s.lens);
    lens := Reassign(H, elems, bl, max, s.lens);
  }

  /** The length of every leaf is its depth. */
  predicate AtDepth(H: seq<nat>, elems: nat, D: seq<nat>, lens: seq<nat>) {
    forall j :: 0 <= j < |H| && H[j] < elems ==> H[j] < |lens| && H[j] < |D| && lens[H[j]] == D[H[j]]
  }

  lemma LeafDepths(s: Pass, H: seq<nat>, dad: seq<nat>, elems: nat, p: nat, max: nat, D: seq<nat>)
    requires Frame(s, H, dad, elems, p, max) && Reached(s, H, dad, elems, max, |H|) && Tracks(s, H, D, max, |H|)
    ensures Within(D, H, max) ==> s.overflow == 0 && AtDepth(H, elems, D, s.lens)
  {
    hide Pow2, Cnt;
    forall j | 0 <= j < |H| && H[j] < elems ensures H[j] < |s.lens| && s.lens[H[j]] == s.dl[H[j]] {
      assert Given(s, elems, max, H[j], j);
    }
  }

  lemma UnusedZero(H: seq<nat>, elems: nat, bl: seq<nat>, max: nat, lens: seq<nat>)
    requires Lengths(H, elems, bl, max, lens)
    ensures |lens| == elems && forall x :: 0 <= x < elems && x !in H ==> lens[x] == 0
  {
  }

  lemma CanRepair(s: Pass, H: seq<nat>, dad: seq<nat>, elems: nat, p: nat, max: nat)
    requires Frame(s, H, dad, elems, p, max) && |s.bl| == MAX_BITS + 1 && |s.V| == elems + p && max <= MAX_BITS
    requires Balance(s, elems, max, elems) && Off(s.bl, max + 1) <= Pow2(max)
    requires forall b :: max < b <= MAX_BITS ==> s.bl[b] == 0
    ensures Repairing(s.bl, s.overflow, max)
  {
    hide Start, Pow2, Off, Cnt, NodeList;
  }

  // Complete sets of codes.

  lemma {:induction false} Rescale(c: seq<nat>, g: nat, big: nat, k: nat)
    requires k <= g + 1 && k <= |c| && g <= big
    ensures Start(c, big, k) == Start(c, g, k) * Pow2(big - g)
  {
    if k > 1 {
      Rescale(c, g, big, k - 1);
      var n := c[k - 1];
      Pow2Add(g - (k - 1), big - g);
      Associate(n, Pow2(g - (k - 1)), Pow2(big - g));
      Distribute(Start(c, g, k - 1), n * Pow2(g - (k - 1)), Pow2(big - g));
    }
  }

  /** Lengths that take up all places make a set of codes gen_codes can work with. */
  lemma LengthsFit(H: seq<nat>, elems: nat, bl: seq<nat>, max: nat, lens: seq<nat>)
    requires Lengths(H, elems, bl, max, lens) && 1 <= max <= MAX_BITS
    requires Start(bl, max, max + 1) == Pow2(max) && bl[0] == 0 && forall b :: max < b <= MAX_BITS ==> bl[b] == 0
    ensures LensOk(lens) && bl == Counts(lens) && Fits(bl) && Complete(lens)
  {
    hide Start, Pow2, Cnt, First;
    assert bl == Counts(lens);
    Rescale(bl, max, MAX_BITS, max + 1);
    Pow2Add(max, MAX_BITS - max);
    StartFlat(bl, MAX_BITS, max + 1, MAX_BITS + 1);
    forall k | 1 <= k <= MAX_BITS ensures First(bl, k) + bl[k] <= Pow2(k) {
      FitsAt(bl, k);
    }
  }

  lemma FitsAt(c: seq<nat>, k: nat)
    requires 1 <= k <= MAX_BITS == |c| - 1 && Start(c, MAX_BITS, MAX_BITS + 1) == Pow2(MAX_BITS)
    ensures First(c, k) + c[k] <= Pow2(k)
  {
    hide Start, Pow2, First;
    StartNext(c, MAX_BITS, k);
    StartMonotonic(c, MAX_BITS, k + 1, MAX_BITS + 1);
    StartIsFirst(c, MAX_BITS, k);
    Distribute(First(c, k), c[k], Pow2(MAX_BITS - k));
    Pow2Add(k, MAX_BITS - k);
    Cancel(First(c, k) + c[k], Pow2(k), Pow2(MAX_BITS - k));
  }

  lemma Cancel(a: nat, b: nat, p: nat)
    requires p > 0 && a * p <= b * p
    ensures a <= b
  {
  }
}
