/** huft_build as called: from code lengths to tables that invert the canonical codes. */
module HuftDecode {
  import opened Arith
  import opened Bits
  import opened BitOrder
  import opened HuffmanCodes
  import opened HuffmanTables
  import opened HuftWidths
  import opened HuftBuild
  import opened HuftGaps

  // Counting the lengths.

  method CountLengths(b: seq<nat>) returns (c: seq<nat>, zeros: nat)
    requires LensOk(b)
    ensures c == Counts(b) && zeros == Cnt(b, 0)
  {
    var count := new nat[MAX_BITS + 1];
    for k := 0 to MAX_BITS + 1
      invariant forall j :: 0 <= j < k ==> count[j] == 0
    {
      count[k] := 0;
    }
    var i := 0;
    NoneYet();
    assert b[..0] == [];
    hide Cnt;
    while i < |b|
      invariant 0 <= i <= |b|
      invariant forall k :: 0 <= k <= MAX_BITS ==> count[k] == Cnt(b[..i], k)
    {
      CntNext(b, i);
      count[b[i]] := count[b[i]] + 1;
      i := i + 1;
    }
    assert b[..i] == b;
    zeros := count[0];
    count[0] := 0;
    c := count[..];
    assert c == Counts(b);
  }

  /** The shortest and the longest length in use. */
  predicate Range(c: seq<nat>, lo: nat, hi: nat) {
    && |c| == MAX_BITS + 1 && 1 <= lo <= hi <= MAX_BITS && c[lo] > 0 && c[hi] > 0
    && (forall k :: 1 <= k < lo ==> c[k] == 0)
    && (forall k :: hi < k <= MAX_BITS ==> c[k] == 0)
  }

  method FindRange(c: seq<nat>, ghost some: nat) returns (lo: nat, hi: nat)
    requires |c| == MAX_BITS + 1 && 1 <= some <= MAX_BITS && c[some] > 0
    ensures Range(c, lo, hi)
  {
    lo := 1;
    while c[lo] == 0
      invariant 1 <= lo <= some && forall k :: 1 <= k < lo ==> c[k] == 0
      decreases some - lo
    {
      lo := lo + 1;
    }
    hi := MAX_BITS;
    while c[hi] == 0
      invariant some <= hi <= MAX_BITS && forall k :: hi < k <= MAX_BITS ==> c[k] == 0
      decreases hi
    {
      hi := hi - 1;
    }
  }

  /** The tables are indexed by m bits, bounded by the shortest and longest lengths. */
  function Width(m: nat, lo: nat, hi: nat): nat {
    var l := if m < lo then lo else m;
    if l > hi then hi else l
  }

  // Room for all codes.

  lemma {:induction false} FirstZero(c: seq<nat>, k: nat)
    requires k <= |c| && forall j :: 1 <= j < k ==> c[j] == 0
    ensures First(c, k) == 0
  {
    if k > 1 {
      FirstZero(c, k - 1);
    }
  }

  lemma {:induction false} FirstBeyond(c: seq<nat>, hi: nat, k: nat)
    requires 1 <= hi < k < |c| && (forall j :: hi < j < |c| ==> c[j] == 0) && First(c, hi) + c[hi] <= Pow2(hi)
    ensures First(c, k) <= Pow2(k)
    decreases k
  {
    if hi < k - 1 {
      FirstBeyond(c, hi, k - 1);
    }
  }

  /** The places no code takes, at the longest length; or that there are too many codes. */
  method Unused(c: seq<nat>, lo: nat, hi: nat) returns (over: bool, y: int)
    requires Range(c, lo, hi) && c[0] == 0
    ensures over == !Fits(c)
    ensures !over ==> y >= 0 && First(c, hi) + c[hi] + y == Pow2(hi)
  {
    hide Pow2, First, Fits, Range, FitsFrom, Left;
    over := true;
    var j := lo;
    y := Pow2(j);
    RangeIs(c, lo, hi);
    NoneTaken(c, lo, hi);
    while j < hi
      invariant lo <= j <= hi && Left(c, lo, j, y)
    {
      LeftAfter(c, lo, j, y);
      y := y - c[j];
      if y < 0 {
        return;
      }
      j, y := j + 1, y * 2;
    }
    LeftAfter(c, lo, hi, y);
    y := y - c[hi];
    if y < 0 {
      return;
    }
    AllFit(c, lo, hi);
    over := false;
  }

  /** The shorter codes have room, and y is what they leave of length k. */
  predicate Left(c: seq<nat>, lo: nat, k: nat, y: int) {
    1 <= k < |c| && FitsFrom(c, lo, k) && y == Pow2(k) - First(c, k)
  }

  lemma NoneTaken(c: seq<nat>, lo: nat, hi: nat)
    requires Range(c, lo, hi)
    ensures Left(c, lo, lo, Pow2(lo))
  {
    hide First, Pow2;
    FirstZero(c, lo);
  }

  /** The codes of length k do not fit, or twice of what they leave is left of the next length. */
  lemma LeftAfter(c: seq<nat>, lo: nat, k: nat, y: int)
    requires |c| == MAX_BITS + 1 && Left(c, lo, k, y)
    ensures y < c[k] ==> !Fits(c)
    ensures y >= c[k] ==> First(c, k) + c[k] + (y - c[k]) == Pow2(k) && FitsFrom(c, lo, k + 1)
    ensures y >= c[k] && k < MAX_BITS ==> Left(c, lo, k + 1, (y - c[k]) * 2)
  {
    hide FitsFrom, Fits;
    if y < c[k] {
      TooMany(c, k);
    } else {
      OneMoreFits(c, lo, k);
    }
  }

  /** The codes of lo bits up to k, k not included, have room. */
  predicate FitsFrom(c: seq<nat>, lo: nat, k: nat) {
    k <= |c| && forall j :: lo <= j < k ==> First(c, j) + c[j] <= Pow2(j)
  }

  lemma OneMoreFits(c: seq<nat>, lo: nat, k: nat)
    requires 1 <= k < |c| && FitsFrom(c, lo, k) && First(c, k) + c[k] <= Pow2(k)
    ensures FitsFrom(c, lo, k + 1)
    ensures Pow2(k + 1) - First(c, k + 1) == (Pow2(k) - First(c, k) - c[k]) * 2
  {
  }

  lemma RangeIs(c: seq<nat>, lo: nat, hi: nat)
    requires Range(c, lo, hi)
    ensures 1 <= lo <= hi <= MAX_BITS == |c| - 1
  {
  }

  lemma TooMany(c: seq<nat>, k: nat)
    requires 1 <= k <= MAX_BITS == |c| - 1 && First(c, k) + c[k] > Pow2(k)
    ensures !Fits(c)
  {
  }

  lemma AllFit(c: seq<nat>, lo: nat, hi: nat)
    requires Range(c, lo, hi) && c[0] == 0
    requires FitsFrom(c, lo, hi + 1)
    ensures Fits(c)
  {
    hide First, Pow2;
    forall k | 1 <= k <= MAX_BITS ensures First(c, k) + c[k] <= Pow2(k) {
      if k < lo {
        FirstZero(c, k);
      } else if k > hi {
        FirstBeyond(c, hi, k);
      }
    }
  }

  // The symbols in the order of their codes.

  lemma {:induction false} OffMonotonic(c: seq<nat>, j: nat, k: nat)
    requires j <= k <= |c|
    ensures Off(c, j) <= Off(c, k)
    decreases k
  {
    if j < k {
      OffMonotonic(c, j, k - 1);
    }
  }

  /** The position of symbol n in the order of codes. */
  function Slot(b: seq<nat>, n: nat): (i: nat)
    requires LensOk(b) && n < |b| && b[n] > 0
  {
    Off(Counts(b), b[n]) + Rank(b, n)
  }

  lemma {:induction false} RankGrows(b: seq<nat>, n: nat, m: nat)
    requires n < m < |b| && b[n] == b[m]
    ensures Rank(b, n) < Rank(b, m)
  {
    CntPrefix(b[..m], n, b[n]);
    assert b[..m][..n] == b[..n];
  }

  lemma SlotsDiffer(b: seq<nat>, n: nat, m: nat)
    requires LensOk(b) && n < m < |b| && b[n] > 0 && b[m] > 0
    ensures Slot(b, n) != Slot(b, m)
  {
    var c := Counts(b);
    hide Off, Rank;
    if b[n] == b[m] {
      RankGrows(b, n, m);
    } else if b[n] < b[m] {
      OffNext(c, b[n]);
      OffMonotonic(c, b[n] + 1, b[m]);
    } else {
      OffNext(c, b[m]);
      OffMonotonic(c, b[m] + 1, b[n]);
    }
  }

  lemma SlotInRange(b: seq<nat>, lo: nat, hi: nat, n: nat)
    requires LensOk(b) && Range(Counts(b), lo, hi) && n < |b| && b[n] > 0
    ensures b[n] <= hi && Slot(b, n) < Off(Counts(b), hi + 1)
  {
    var c := Counts(b);
    hide Off, Rank;
    assert Rank(b, n) < c[b[n]];
    OffNext(c, b[n]);
    OffMonotonic(c, b[n] + 1, hi + 1);
  }

  /** v lists the symbols that have a code in the order of their codes. */
  predicate Ordered(b: seq<nat>, v: seq<nat>, hi: nat)
    requires LensOk(b)
  {
    && hi <= MAX_BITS && |v| == Off(Counts(b), hi + 1)
    && forall n :: 0 <= n < |b| && b[n] > 0 ==> Slot(b, n) < |v| && v[Slot(b, n)] == n
  }

  method Order(b: seq<nat>, c: seq<nat>, lo: nat, hi: nat) returns (v: seq<nat>)
    requires LensOk(b) && c == Counts(b) && Range(c, lo, hi)
    ensures Ordered(b, v, hi)
  {
    hide Off, Rank, Cnt, Range, Placed, Slot, Cursors, Counts, Sum, Ordered, Unset;
    RangeIs(c, lo, hi);
    var x := Offsets(c, hi);
    v := Unset(Sum(c, hi));
    var n := 0;
    FirstCursors(b, c, x, hi);
    NothingPlaced(b, v);
    while n < |b|
      invariant 0 <= n <= |b| && |v| == Off(c, hi + 1)
      invariant Cursors(b, c, x, hi, n) && Placed(b, v, n)
    {
      var j := b[n];
      PlacedNext(b, v, n);
      CursorsNext(b, c, x, hi, n);
      if j != 0 {
        SlotInRange(b, lo, hi, n);
        SlotIs(b, n);
        v := v[x[j] := n];
        x := x[j := x[j] + 1];
      }
      n := n + 1;
    }
    AllPlaced(b, v, hi);
  }

  function Unset(n: nat): (v: seq<nat>)
    ensures |v| == n
  {
    seq(n, _ => 0)
  }

  /** x holds, for every length, the place of the next symbol that has it. */
  predicate Cursors(b: seq<nat>, c: seq<nat>, x: seq<nat>, hi: nat, n: nat) {
    && n <= |b| && hi < |x| <= |c|
    && forall k :: 1 <= k <= hi ==> x[k] == Off(c, k) + Cnt(b[..n], k)
  }

  lemma FirstCursors(b: seq<nat>, c: seq<nat>, x: seq<nat>, hi: nat)
    requires hi < |x| <= |c| && forall k :: 1 <= k <= hi ==> x[k] == Off(c, k)
    ensures Cursors(b, c, x, hi, 0)
  {
  }

  lemma CursorsNext(b: seq<nat>, c: seq<nat>, x: seq<nat>, hi: nat, n: nat)
    requires Cursors(b, c, x, hi, n) && n < |b|
    ensures hi < |x|
    ensures b[n] == 0 ==> Cursors(b, c, x, hi, n + 1)
    ensures 0 < b[n] <= hi ==> x[b[n]] == Off(c, b[n]) + Cnt(b[..n], b[n])
                               && Cursors(b, c, x[b[n] := x[b[n]] + 1], hi, n + 1)
  {
    hide Cnt, Off;
    CntNext(b, n);
  }

  /** The first n symbols are in their places. */
  predicate Placed(b: seq<nat>, v: seq<nat>, n: nat)
    requires LensOk(b)
  {
    n <= |b| && forall i :: 0 <= i < n && b[i] > 0 ==> Slot(b, i) < |v| && v[Slot(b, i)] == i
  }

  lemma NothingPlaced(b: seq<nat>, v: seq<nat>)
    requires LensOk(b)
    ensures Placed(b, v, 0)
  {
  }

  lemma PlacedNext(b: seq<nat>, v: seq<nat>, n: nat)
    requires LensOk(b) && Placed(b, v, n) && n < |b|
    ensures if b[n] == 0 then Placed(b, v, n + 1)
            else Slot(b, n) < |v| ==> Placed(b, v[Slot(b, n) := n], n + 1)
  {
    hide Slot;
    if b[n] > 0 {
      forall i | 0 <= i < n && b[i] > 0 ensures Slot(b, i) != Slot(b, n) {
        SlotsDiffer(b, i, n);
      }
    }
  }

  lemma AllPlaced(b: seq<nat>, v: seq<nat>, hi: nat)
    requires LensOk(b) && Placed(b, v, |b|) && hi <= MAX_BITS && |v| == Off(Counts(b), hi + 1)
    ensures Ordered(b, v, hi)
  {
  }

  lemma SlotIs(b: seq<nat>, n: nat)
    requires LensOk(b) && n < |b| && b[n] > 0
    ensures Slot(b, n) == Off(Counts(b), b[n]) + Cnt(b[..n], b[n])
  {
  }

  method Offsets(c: seq<nat>, hi: nat) returns (x: seq<nat>)
    requires |c| == MAX_BITS + 1 && 1 <= hi <= MAX_BITS
    ensures |x| == MAX_BITS + 1 && forall k :: 1 <= k <= hi ==> x[k] == Off(c, k)
  {
    x := seq(MAX_BITS + 1, _ => 0);
    var j, k := 0, 1;
    while k < hi
      invariant 1 <= k <= hi && |x| == MAX_BITS + 1 && j == Off(c, k)
      invariant forall i :: 1 <= i <= k ==> x[i] == Off(c, i)
    {
      OffNext(c, k);
      j := j + c[k];
      k := k + 1;
      x := x[k := j];
    }
  }

  /** How many symbols have a code. */
  function Sum(c: seq<nat>, hi: nat): (n: nat)
    requires hi < |c|
    ensures n == Off(c, hi + 1)
  {
    if hi == 0 then 0 else Sum(c, hi - 1) + c[hi]
  }

  // Incomplete sets are filled up with codes that mean nothing.

  function Filled(c: seq<nat>, g: nat, y: nat): seq<nat>
    requires g < |c|
  {
    c[g := c[g] + y]
  }

  lemma {:induction false} SameBelow(c: seq<nat>, g: nat, y: nat, k: nat)
    requires 1 <= k <= g < |c|
    ensures Start(Filled(c, g, y), g, k) == Start(c, g, k)
    ensures First(Filled(c, g, y), k) == First(c, k)
    ensures Off(Filled(c, g, y), k) == Off(c, k)
  {
    if k > 1 {
      SameBelow(c, g, y, k - 1);
    }
  }

  lemma FilledLayout(c: seq<nat>, g: nat, y: nat)
    requires 1 <= g < |c| && c[g] > 0 && First(c, g) + c[g] + y == Pow2(g)
    ensures Layout(Filled(c, g, y), g)
  {
    var c2 := Filled(c, g, y);
    SameBelow(c, g, y, g);
    StartIsFirst(c2, g, g);
    assert Pow2(0) == 1;
  }

  /** The codes that fill the set up are the longest, so they open no gap and close none. */
  lemma FilledNoGap(c: seq<nat>, g: nat, l: nat, y: nat)
    requires 1 <= g < |c|
    ensures NoGap(Filled(c, g, y), g, l) <==> NoGap(c, g, l)
  {
    hide Start, Pow2;
    forall w | 0 < l <= w && w + l < g && w % l == 0
      ensures Start(Filled(c, g, y), g, w + l + 1) == Start(c, g, w + l + 1)
    {
      SameBelow(c, g, y, w + l + 1);
    }
  }

  // What the tables decode.

  /** The code of symbol n is the one the layout puts at its rank. */
  lemma CodeInLayout(b: seq<nat>, g: nat, y: nat, n: nat)
    requires LensOk(b) && Fits(Counts(b)) && n < |b| && 0 < b[n] <= g <= MAX_BITS
    ensures CodeAt(Filled(Counts(b), g, y), g, Code(b, n), Rank(b, n))
  {
    hide Start, Pow2, First, Val, Rank, Fits, ToBits;
    var c, k := Counts(b), b[n];
    SameBelow(c, g, y, k);
    StartIsFirst(c, g, k);
    CodeValueOf(b, n);
    Distribute(First(c, k), Rank(b, n), Pow2(g - k));
  }

  lemma CodeValueOf(b: seq<nat>, n: nat)
    requires LensOk(b) && Fits(Counts(b)) && n < |b| && b[n] > 0
    ensures Val(Code(b, n)) == First(Counts(b), b[n]) + Rank(b, n)
  {
  }

  lemma ShortDecodes(b: seq<nat>, v: seq<nat>, t: Tables, g: nat, l: nat, y: nat, n: nat, s: seq<bool>)
    requires LensOk(b) && Fits(Counts(b)) && Ordered(b, v, g)
    requires Done(t, Filled(Counts(b), g, y), v, g, l, Pow2(g))
    requires n < |b| && 0 < b[n] <= g == |s| && Code(b, n) <= s
    ensures Walk(t, 0, l, s, 0) == Symbol(n, b[n])
  {
    hide Walk, Pow2, Val, Start, Off, Rank, Holds, CodeAt, Code, Fits, Counts, Filled;
    var c := Filled(Counts(b), g, y);
    ValBound(s);
    assert Decodes(t, c, v, g, l, s);
    CodeInLayout(b, g, y, n);
    CodeHolds(c, g, Code(b, n), Rank(b, n), s);
    SameBelow(Counts(b), g, y, b[n]);
  }

  /** Tables built for b give every symbol back from its code, whatever bits follow. */
  lemma CodeDecodes(b: seq<nat>, v: seq<nat>, t: Tables, g: nat, l: nat, y: nat, n: nat, rest: seq<bool>)
    requires LensOk(b) && Fits(Counts(b)) && Ordered(b, v, g)
    requires Done(t, Filled(Counts(b), g, y), v, g, l, Pow2(g))
    requires n < |b| && 0 < b[n] <= g && |rest| + b[n] >= g
    ensures Walk(t, 0, l, Code(b, n) + rest, 0) == Symbol(n, b[n])
  {
    hide Walk, Pow2, Done, Code, Fits, Counts, Ordered, Filled;
    var stream := Code(b, n) + rest;
    var s := stream[..g];
    assert Code(b, n) <= s;
    ShortDecodes(b, v, t, g, l, y, n, s);
    WalkExtends(t, 0, l, s, 0, stream[g..]);
    assert s + stream[g..] == stream;
  }

  /** Every place before the end belongs to some code. */
  lemma {:induction false} Locate(c: seq<nat>, g: nat, p: nat, j: nat) returns (k: nat, r: nat)
    requires 1 <= j <= g + 1 && g < |c| && p < Start(c, g, j)
    ensures Holds(c, g, p, k, r) && k < j
    decreases j
  {
    hide Pow2;
    assert j > 1;
    if p < Start(c, g, j - 1) {
      k, r := Locate(c, g, p, j - 1);
    } else {
      k := j - 1;
      var u, d := Pow2(g - k), p - Start(c, g, k);
      r := d / u;
      Inside(d, u, r, c[k]);
    }
  }

  lemma Inside(d: nat, u: nat, r: nat, n: nat)
    requires u > 0 && r == d / u && d < n * u
    ensures r * u <= d < (r + 1) * u && r < n
  {
  }

  lemma {:induction false} FindRank(b: seq<nat>, k: nat, r: nat) returns (n: nat)
    requires r < Cnt(b, k)
    ensures n < |b| && b[n] == k && Rank(b, n) == r
  {
    var m := |b| - 1;
    if b[m] == k && Cnt(b[..m], k) == r {
      n := m;
    } else {
      n := FindRank(b[..m], k, r);
      assert b[..m][..n] == b[..n];
    }
  }

  /** The walk of s ends after at most g bits; a symbol it gives has its code there, and nothing else was used. */
  ghost predicate DecodesOnly(b: seq<nat>, t: Tables, l: nat, s: seq<bool>, g: nat)
    requires LensOk(b) && Fits(Counts(b))
  {
    var w := Walk(t, 0, l, s, 0);
    && w != Stuck && w.used <= g
    && (w.Symbol? ==> w.symbol < |b| && b[w.symbol] == w.used > 0 && Code(b, w.symbol) <= s)
  }

  /** What a layout says of a place is the symbol whose code is there, if there is one. */
  lemma MeaningIs(b: seq<nat>, v: seq<nat>, g: nat, y: nat, k: nat, r: nat, s: seq<bool>)
    requires LensOk(b) && Fits(Counts(b)) && Ordered(b, v, g) && 1 <= g && |s| == g
    requires Holds(Filled(Counts(b), g, y), g, Val(s), k, r)
    ensures var w := Meaning(Filled(Counts(b), g, y), v, k, r);
      && w != Stuck && w.used == k <= g
      && (w.Symbol? ==> w.symbol < |b| && b[w.symbol] == k > 0 && Code(b, w.symbol) <= s)
  {
    hide Pow2, Val, Start, Off, Rank, Holds, CodeAt, Code, Fits, Counts;
    var c := Filled(Counts(b), g, y);
    HoldsIs(c, g, Val(s), k, r);
    SameBelow(Counts(b), g, y, k);
    OffNext(Counts(b), g);
    if Off(c, k) + r < |v| {
      var n := FindRank(b, k, r);
      CodeInLayout(b, g, y, n);
      CodeHolds(c, g, Code(b, n), r, s);
    }
  }

  /** Whatever the tables decode is the code of the symbol they give, in full. */
  lemma OnlyCodes(b: seq<nat>, v: seq<nat>, t: Tables, g: nat, l: nat, y: nat, s: seq<bool>)
    requires LensOk(b) && Fits(Counts(b)) && Ordered(b, v, g) && 1 <= g
    requires Layout(Filled(Counts(b), g, y), g) && Done(t, Filled(Counts(b), g, y), v, g, l, Pow2(g)) && |s| == g
    ensures DecodesOnly(b, t, l, s, g)
  {
    assert g <= MAX_BITS;
    hide Walk, Pow2, Val, Start, Off, Rank, Holds, Code, Fits, Counts, Filled, Ordered, Meaning;
    var c := Filled(Counts(b), g, y);
    ValBound(s);
    var k, r := Locate(c, g, Val(s), g + 1);
    assert Decodes(t, c, v, g, l, s);
    MeaningIs(b, v, g, y, k, r, s);
  }

  lemma HoldsIs(c: seq<nat>, g: nat, p: nat, k: nat, r: nat)
    requires Holds(c, g, p, k, r)
    ensures 1 <= k <= g < |c| && r < c[k]
  {
  }

  /** No code is the beginning of another. */
  lemma PrefixFree(b: seq<nat>, n: nat, m: nat)
    requires LensOk(b) && Fits(Counts(b)) && n < |b| && m < |b| && b[n] > 0 && b[m] > 0 && n != m
    ensures !(Code(b, n) <= Code(b, m))
  {
    hide Val, Pow2, Start, Holds, Code, Fits, Counts, CodeAt, Rank;
    var g := MAX_BITS;
    var c := Filled(Counts(b), g, 0);
    var s := Code(b, m) + Zeros(g - b[m]);
    CodeInLayout(b, g, 0, n);
    CodeInLayout(b, g, 0, m);
    CodeHolds(c, g, Code(b, n), Rank(b, n), s);
    CodeHolds(c, g, Code(b, m), Rank(b, m), s);
    if Code(b, n) <= Code(b, m) {
      OneCode(c, g, Val(s), b[n], Rank(b, n), b[m], Rank(b, m));
      if n < m {
        RankGrows(b, n, m);
      } else {
        RankGrows(b, m, n);
      }
    }
  }

  // The whole of huft_build.

  datatype Status = Ok | Incomplete | DataError

  /** No code set of b has a gap of more than the table width behind any table. */
  ghost predicate Tame(b: seq<nat>, m: nat) {
    forall lo, hi :: Range(Counts(b), lo, hi) ==> NoGap(Counts(b), hi, Width(m, lo, hi))
  }

  /** The tables t, first indexed by l bits, decode exactly the codes of b. */
  ghost predicate Inverts(b: seq<nat>, t: Tables, l: nat)
    requires LensOk(b) && Fits(Counts(b))
  {
    && (forall n, rest: seq<bool> :: 0 <= n < |b| && b[n] > 0 && |rest| >= MAX_BITS ==>
          Walk(t, 0, l, Code(b, n) + rest, 0) == Symbol(n, b[n]))
    && (forall s: seq<bool> :: |s| >= MAX_BITS ==> DecodesOnly(b, t, l, s, MAX_BITS))
  }

  lemma Inverted(b: seq<nat>, v: seq<nat>, t: Tables, lo: nat, g: nat, l: nat, y: nat)
    requires LensOk(b) && Fits(Counts(b)) && Range(Counts(b), lo, g) && Ordered(b, v, g)
    requires Layout(Filled(Counts(b), g, y), g) && Done(t, Filled(Counts(b), g, y), v, g, l, Pow2(g))
    ensures Inverts(b, t, l)
  {
    hide Walk, Pow2, Val, Start, Off, Rank, Code, Fits, Done, Ordered, Layout, Cnt;
    forall n, rest: seq<bool> | 0 <= n < |b| && b[n] > 0 && |rest| >= MAX_BITS
      ensures Walk(t, 0, l, Code(b, n) + rest, 0) == Symbol(n, b[n])
    {
      SlotInRange(b, lo, g, n);
      CodeDecodes(b, v, t, g, l, y, n, rest);
    }
    forall s: seq<bool> | |s| >= MAX_BITS ensures DecodesOnly(b, t, l, s, MAX_BITS) {
      OnlyCodes(b, v, t, g, l, y, s[..g]);
      WalkExtends(t, 0, l, s[..g], 0, s[g..]);
      assert s[..g] + s[g..] == s;
    }
  }

  lemma {:induction false} SomeLength(b: seq<nat>) returns (k: nat)
    requires LensOk(b) && Cnt(b, 0) < |b|
    ensures 1 <= k <= MAX_BITS && Cnt(b, k) > 0
  {
    var m := |b| - 1;
    if b[m] != 0 {
      k := b[m];
    } else {
      k := SomeLength(b[..m]);
    }
  }

  /** huft_build: tables for the lengths b, indexed by at most m bits. They are right exactly if b is tame. */
  method Build(b: seq<nat>, m: nat) returns (status: Status, t: Tables, l: nat)
    requires LensOk(b) && b != []
    ensures Cnt(b, 0) == |b| ==> status == Ok && t == [] && l == 0
    ensures Cnt(b, 0) < |b| ==> (status == DataError <==> !Fits(Counts(b)))
    ensures Cnt(b, 0) < |b| && status != DataError ==> (Inverts(b, t, l) <==> Tame(b, m))
    ensures Cnt(b, 0) < |b| && status != DataError && !Tame(b, m) ==> Deaf(t, l, MAX_BITS)
    ensures Cnt(b, 0) < |b| && status != DataError ==> 1 <= l <= MAX_BITS && Neat(t, l)
    ensures Cnt(b, 0) < |b| && status == Ok ==> Complete(b) || OneBit(b)
    ensures status == Incomplete ==> !Complete(b) && !OneBit(b)
  {
    hide Fits, Inverts, Neat, Range, Counts, Tame, NoGap, Layout, Done, Ordered, Walk, Cnt, First, Complete, OneBit,
         Pow2,
         Framed, Real, Deaf;
    t := [];
    var c, zeros := CountLengths(b);
    if zeros == |b| {
      return Ok, [], 0;
    }
    ghost var some := SomeLength(b);
    var lo, g := FindRange(c, some);
    l := Width(m, lo, g);
    RangeIs(c, lo, g);
    var over, y := Unused(c, lo, g);
    if over {
      return DataError, [], l;
    }
    var v := Order(b, c, lo, g);
    var full := c[g := c[g] + y];
    Ready(b, m, lo, g, l, y);
    ghost var f, ws;
    t, f, ws := BuildTables(full, v, g, l, lo);
    RightIff(b, m, v, t, f, ws, lo, g, l, y);
    CompleteIff(b, lo, g, y);
    status := if y != 0 && g != 1 then Incomplete else Ok;
  }

  lemma Ready(b: seq<nat>, m: nat, lo: nat, g: nat, l: nat, y: nat)
    requires LensOk(b) && Range(Counts(b), lo, g) && l == Width(m, lo, g)
    requires First(Counts(b), g) + Counts(b)[g] + y == Pow2(g)
    ensures var full := Filled(Counts(b), g, y);
      Layout(full, g) && 1 <= lo <= l <= g && full[lo] > 0 && forall j :: 1 <= j < lo ==> full[j] == 0
  {
    hide First, Pow2, Layout, Start;
    FilledLayout(Counts(b), g, y);
  }

  lemma OneRange(c: seq<nat>, lo: nat, hi: nat, lo2: nat, hi2: nat)
    requires Range(c, lo, hi) && Range(c, lo2, hi2)
    ensures lo == lo2 && hi == hi2
  {
  }

  lemma TameIff(b: seq<nat>, m: nat, lo: nat, g: nat, l: nat, y: nat)
    requires LensOk(b) && Range(Counts(b), lo, g) && l == Width(m, lo, g)
    ensures NoGap(Filled(Counts(b), g, y), g, l) <==> Tame(b, m)
  {
    hide NoGap, Range, Filled, Counts;
    RangeIs(Counts(b), lo, g);
    FilledNoGap(Counts(b), g, l, y);
    forall lo2, hi2 | Range(Counts(b), lo2, hi2) ensures lo2 == lo && hi2 == g {
      OneRange(Counts(b), lo, g, lo2, hi2);
    }
  }

  lemma DeafNotInverts(b: seq<nat>, t: Tables, l: nat, g: nat)
    requires LensOk(b) && Fits(Counts(b)) && g <= MAX_BITS && Deaf(t, l, g)
    ensures Deaf(t, l, MAX_BITS) && !Inverts(b, t, l)
  {
    hide Walk, Fits, Counts;
    var s := seq(MAX_BITS, _ => true);
    assert !DecodesOnly(b, t, l, s, MAX_BITS);
  }

  /** The tables decode exactly the codes of b if there is no gap, and only then. */
  lemma RightIff(b: seq<nat>, m: nat, v: seq<nat>, t: Tables, f: Forest, ws: seq<nat>, lo: nat, g: nat, l: nat, y: nat)
    requires LensOk(b) && Fits(Counts(b)) && Range(Counts(b), lo, g) && Ordered(b, v, g) && l == Width(m, lo, g)
    requires var full := Filled(Counts(b), g, y);
      Layout(full, g) && Done(f.t, full, v, g, l, Pow2(g)) && Framed(f, full, g, l) && Real(t, f, ws, full, g, l, g)
    ensures Inverts(b, t, l) <==> Tame(b, m)
    ensures !Tame(b, m) ==> Deaf(t, l, MAX_BITS)
    ensures Neat(t, l)
  {
    hide Fits, Inverts, Neat, Range, Counts, Tame, NoGap, Layout, Done, Ordered, Walk, Pow2, Framed, Real, Deaf, Filled;
    RangeIs(Counts(b), lo, g);
    var full := Filled(Counts(b), g, y);
    TameIff(b, m, lo, g, l, y);
    RealNeat(t, f, ws, full, g, l, g);
    if Tame(b, m) {
      GapFree(t, f, ws, full, g, l, g);
      Inverted(b, v, t, lo, g, l, y);
    } else {
      GapDeaf(t, f, ws, full, v, g, l);
      DeafNotInverts(b, t, l, g);
    }
  }

  /** Tables deaf to all ones do not decode the last code of a complete set. */
  lemma MissesCode(b: seq<nat>, t: Tables, l: nat) returns (n: nat)
    requires LensOk(b) && Fits(Counts(b)) && Complete(b) && Deaf(t, l, MAX_BITS)
    ensures n < |b| && b[n] > 0 && AllOnes(Code(b, n))
    ensures forall rest :: |rest| >= MAX_BITS && AllOnes(rest) ==> Walk(t, 0, l, Code(b, n) + rest, 0) == Stuck
  {
    hide Walk, Fits, Counts, Start, Holds, Val, Pow2, CodeAt, Code, Rank, Cnt;
    var g, s := MAX_BITS, seq(MAX_BITS, _ => true);
    var c := Counts(b);
    ValOnes(s);
    var k, r := Locate(c, g, Val(s), g + 1);
    HoldsIs(c, g, Val(s), k, r);
    CountsAt(b, k);
    n := FindRank(b, k, r);
    assert Filled(c, g, 0) == c;
    CodeInLayout(b, g, 0, n);
    CodeHolds(c, g, Code(b, n), r, s);
  }

  lemma CountsAt(b: seq<nat>, k: nat)
    requires LensOk(b) && 1 <= k <= MAX_BITS
    ensures |Counts(b)| == MAX_BITS + 1 && Counts(b)[k] == Cnt(b, k)
  {
  }

  lemma CntPlus(b: seq<nat>, x: nat, k: nat)
    ensures Cnt(b + [x], k) == Cnt(b, k) + if x == k then 1 else 0
  {
    assert (b + [x])[..|b|] == b;
  }

  lemma CntUntamed(k: nat)
    ensures Cnt([1, 3, 3, 3, 3], k) == if k == 1 then 1 else if k == 3 then 4 else 0
  {
    assert Cnt([], k) == 0;
    hide Cnt;
    CntPlus([], 1, k);
    CntPlus([1], 3, k);
    CntPlus([1, 3], 3, k);
    CntPlus([1, 3, 3], 3, k);
    CntPlus([1, 3, 3, 3], 3, k);
    assert [] + [1] == [1] && [1] + [3] == [1, 3] && [1, 3] + [3] == [1, 3, 3];
    assert [1, 3, 3] + [3] == [1, 3, 3, 3] && [1, 3, 3, 3] + [3] == [1, 3, 3, 3, 3];
  }

  lemma UntamedPlaces(c: seq<nat>)
    requires Range(c, 1, 3) && c[0] == 0 && c[1] == 1 && c[2] == 0 && c[3] == 4
    ensures FitsFrom(c, 1, 4) && First(c, 3) == 4 && Start(c, 3, 3) == 4
    ensures Pow2(3) == 8 && Pow2(2) == 4
  {
    assert First(c, 2) == 2 && Start(c, 3, 2) == 4;
  }

  /** One code of one bit and four of three: a complete set whose tables, one bit at a time, miss a code. */
  lemma Untamed()
    ensures var b := [1, 3, 3, 3, 3]; LensOk(b) && Fits(Counts(b)) && Complete(b) && !Tame(b, 1)
  {
    var b := [1, 3, 3, 3, 3];
    var c := Counts(b);
    forall k | 1 <= k <= MAX_BITS ensures c[k] == if k == 1 then 1 else if k == 3 then 4 else 0 {
      CntUntamed(k);
    }
    assert Range(c, 1, 3);
    hide Pow2, Start, First, Fits, FitsFrom, Cnt;
    UntamedPlaces(c);
    AllFit(c, 1, 3);
    AllPlaces(c, 1, 3, 0);
    var w := 1;
    assert w % 1 == 0 && Pow2(3) >= Start(c, 3, w + 1 + 1) + Pow2(3 - w);
    assert !NoGap(c, 3, Width(1, 1, 3));
  }

  lemma CntSparse(k: nat)
    ensures Cnt([1, 15], k) == if k == 1 || k == 15 then 1 else 0
  {
    assert Cnt([], k) == 0;
    hide Cnt;
    CntPlus([], 1, k);
    CntPlus([1], 15, k);
    assert [] + [1] == [1] && [1] + [15] == [1, 15];
  }

  /** One code of 1 bit, one of 15, and none between. */
  predicate Sparse(c: seq<nat>) {
    Range(c, 1, 15) && c[0] == 0 && c[1] == 1 && c[15] == 1 && forall j :: 1 < j < 15 ==> c[j] == 0
  }

  lemma {:induction false} SparseFits(c: seq<nat>, k: nat)
    requires Sparse(c) && 2 <= k <= 15
    ensures FitsFrom(c, 1, k) && 2 * First(c, k) == Pow2(k)
  {
    if k == 2 {
      assert First(c, 2) == 2 && Pow2(2) == 4;
    } else {
      SparseFits(c, k - 1);
    }
  }

  lemma Powers()
    ensures Pow2(15) == 2 * Pow2(14) == 32768 && Pow2(9) == 512
  {
    assert Pow2(5) == 32;
    Pow2Add(5, 4);
    Pow2Add(9, 5);
  }

  /** The codes fit and leave places over, and behind six ones only the long code is left. */
  lemma SparseCodes(c: seq<nat>)
    requires Sparse(c)
    ensures Fits(c) && Start(c, MAX_BITS, MAX_BITS + 1) != Pow2(MAX_BITS) && !NoGap(c, 15, 6)
  {
    assert Start(c, 15, 2) == Pow2(14);
    hide Pow2, Start, First, Fits, FitsFrom;
    Powers();
    SparseFits(c, 15);
    OneMoreFits(c, 1, 15);
    AllFit(c, 1, 15);
    AllPlaces(c, 1, 15, Pow2(15) - First(c, 15) - 1);
    StartFlat(c, 15, 2, 13);
    var w := 6;
    assert w % 6 == 0 && Pow2(15) >= Start(c, 15, w + 6 + 1) + Pow2(15 - w);
  }

  lemma SparseCounts()
    ensures LensOk([1, 15]) && Sparse(Counts([1, 15]))
  {
    var c := Counts([1, 15]);
    forall k | 1 <= k <= MAX_BITS ensures c[k] == if k == 1 || k == 15 then 1 else 0 {
      CntSparse(k);
    }
  }

  /** Two distances with codes of 1 and 15 bits: incomplete, and not tame for the six bits distances are read by. */
  lemma SparseDistances()
    ensures var b := [1, 15]; LensOk(b) && Fits(Counts(b)) && !Complete(b) && !OneBit(b) && !Tame(b, 6)
  {
    hide Fits, NoGap, Counts, Start, Pow2;
    var b := [1, 15];
    SparseCounts();
    SparseCodes(Counts(b));
    assert b[1] == 15;
    assert Width(6, 1, 15) == 6 && Range(Counts(b), 1, 15);
  }

  /** The tables for them are reported incomplete, and do not decode all ones. */
  method BuildSparse() returns (status: Status, t: Tables, l: nat)
    ensures status == Incomplete && Deaf(t, l, MAX_BITS)
  {
    hide Fits, Deaf, Tame, Complete, OneBit, Counts, Cnt, Inverts, Neat;
    SparseDistances();
    SomeUsed([1, 15], 0);
    status, t, l := Build([1, 15], 6);
  }

  lemma {:induction false} SomeUsed(b: seq<nat>, n: nat)
    requires n < |b| && b[n] > 0
    ensures Cnt(b, 0) < |b|
  {
    if n < |b| - 1 {
      SomeUsed(b[..|b| - 1], n);
    }
  }

  /** No code is longer than one bit. */
  predicate OneBit(b: seq<nat>) { forall n :: 0 <= n < |b| ==> b[n] <= 1 }

  lemma CompleteIff(b: seq<nat>, lo: nat, g: nat, y: nat)
    requires LensOk(b) && Range(Counts(b), lo, g) && First(Counts(b), g) + Counts(b)[g] + y == Pow2(g)
    ensures Complete(b) <==> y == 0
    ensures OneBit(b) <==> g == 1
  {
    hide First, Pow2, Start, Cnt, Range, OneBit, Counts;
    OneBitIff(b, lo, g);
    AllPlaces(Counts(b), lo, g, y);
  }

  lemma AllPlaces(c: seq<nat>, lo: nat, g: nat, y: nat)
    requires Range(c, lo, g) && First(c, g) + c[g] + y == Pow2(g)
    ensures Start(c, MAX_BITS, MAX_BITS + 1) == Pow2(MAX_BITS) <==> y == 0
  {
    hide First, Pow2, Start;
    StartFlat(c, MAX_BITS, g + 1, MAX_BITS + 1);
    StartNext(c, MAX_BITS, g);
    StartIsFirst(c, MAX_BITS, g);
    Pow2Add(g, MAX_BITS - g);
    NothingLeft(First(c, g), c[g], y, Pow2(MAX_BITS - g));
  }

  lemma NothingLeft(f: nat, n: nat, y: nat, p: nat)
    requires p > 0
    ensures f * p + n * p == (f + n + y) * p <==> y == 0
  {
  }

  lemma OneBitIff(b: seq<nat>, lo: nat, g: nat)
    requires LensOk(b) && Range(Counts(b), lo, g)
    ensures OneBit(b) <==> g == 1
  {
    hide Cnt, Off, Slot;
    var n := FindRank(b, g, 0);
    forall i | 0 <= i < |b| && b[i] > 0 ensures b[i] <= g {
      SlotInRange(b, lo, g, i);
    }
  }

  /*
   * The callers: literal and length codes with m = 9, distance codes with m = 6, code lengths
   * with m = 7, and the fixed trees with m = 7 and m = 5.
   */

  /** Codes of at most 2m bits are reached by the second level. */
  lemma ShallowTame(b: seq<nat>, m: nat)
    requires LensOk(b) && forall n :: 0 <= n < |b| ==> b[n] <= 2 * m
    ensures Tame(b, m)
  {
    hide Start, Pow2, Cnt;
    forall lo, hi | Range(Counts(b), lo, hi) ensures NoGap(Counts(b), hi, Width(m, lo, hi)) {
      var n := FindRank(b, hi, 0);
    }
  }

  lemma {:induction false} OffStep(b: seq<nat>, k: nat)
    requires LensOk(b) && b != [] && k <= MAX_BITS + 1
    ensures var m := |b| - 1;
      Off(Counts(b), k) == Off(Counts(b[..m]), k) + if 0 < b[m] < k then 1 else 0
  {
    if k > 1 {
      OffStep(b, k - 1);
    }
  }

  lemma {:induction false} OffBound(b: seq<nat>, k: nat)
    requires LensOk(b) && k <= MAX_BITS + 1
    ensures Off(Counts(b), k) <= |b|
  {
    if b == [] {
      OffEmpty(k);
    } else {
      OffStep(b, k);
      OffBound(b[..|b| - 1], k);
    }
  }

  lemma {:induction false} OffEmpty(k: nat)
    requires k <= MAX_BITS + 1
    ensures Off(Counts([]), k) == 0
  {
    if k > 1 {
      OffEmpty(k - 1);
    }
  }

  /** Codes of j bits and more take up at most 2^(g-j) places each. */
  lemma {:induction false} LongCodes(c: seq<nat>, g: nat, j: nat, k: nat)
    requires 1 <= j <= k <= g + 1 && j <= g < |c|
    ensures Off(c, j) <= Off(c, k)
    ensures Start(c, g, k) - Start(c, g, j) <= (Off(c, k) - Off(c, j)) * Pow2(g - j)
    decreases k
  {
    if j < k {
      LongCodes(c, g, j, k - 1);
      var n, u, p := c[k - 1], Pow2(g - (k - 1)), Pow2(g - j);
      Pow2Monotonic(g - (k - 1), g - j);
      ScaleUp(n, u, p);
      Distribute(Off(c, k - 1) - Off(c, j), n, p);
    }
  }

  lemma ScaleUp(n: nat, u: nat, p: nat)
    requires u <= p
    ensures n * u <= n * p
  {
  }

  lemma CompleteNoGap(c: seq<nat>, g: nat, l: nat, w: nat)
    requires 1 <= g < |c| && 0 < l <= w && w + l < g
    requires Start(c, g, g + 1) == Pow2(g) && Off(c, g + 1) < Pow2(l + 1)
    ensures Pow2(g) < Start(c, g, w + l + 1) + Pow2(g - w)
  {
    hide Start, Off, Pow2;
    var j := w + l + 1;
    var n := Off(c, g + 1) - Off(c, j);
    LongCodes(c, g, j, g + 1);
    Pow2Add(l + 1, g - j);
    assert Pow2(l + 1) * Pow2(g - j) == Pow2(g - w);
    MulLess(n, Pow2(l + 1), Pow2(g - j));
  }

  lemma CompleteAt(b: seq<nat>, lo: nat, g: nat)
    requires LensOk(b) && Fits(Counts(b)) && Complete(b) && Range(Counts(b), lo, g)
    ensures Start(Counts(b), g, g + 1) == Pow2(g)
  {
    var c := Counts(b);
    var y := Pow2(g) - First(c, g) - c[g];
    assert Pow2(0) == 1;
    hide First, Pow2, Start, Range;
    AllPlaces(c, lo, g, y);
    RangeIs(c, lo, g);
    StartNext(c, g, g);
    StartIsFirst(c, g, g);
  }

  /** A complete set of fewer than 2^(m+1) codes has no gap: the tables for it are always right. */
  lemma CompleteTame(b: seq<nat>, m: nat)
    requires LensOk(b) && Fits(Counts(b)) && Complete(b) && 0 < m && |b| < Pow2(m + 1)
    ensures Tame(b, m)
  {
    hide Start, Pow2, Fits, Complete, Off, Counts;
    var c := Counts(b);
    forall lo, hi | Range(c, lo, hi) ensures NoGap(c, hi, Width(m, lo, hi)) {
      var l := Width(m, lo, hi);
      CompleteAt(b, lo, hi);
      OffBound(b, hi + 1);
      forall w | l <= w && w + l < hi && w % l == 0 ensures Pow2(hi) < Start(c, hi, w + l + 1) + Pow2(hi - w) {
        Pow2Monotonic(m + 1, l + 1);
        CompleteNoGap(c, hi, l, w);
      }
    }
  }
}
