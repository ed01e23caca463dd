/** huft_build: from code lengths to the multi-level decoding tables. */
module HuftBuild {
  import opened Arith
  import opened Bits
  import opened BitOrder
  import opened HuffmanCodes
  import opened HuffmanTables
  import opened HuftWidths

  // Filling in the entries of one code.

  lemma NextInStep(j: nat, stride: nat, e: nat)
    requires stride > 0 && j < e < j + stride
    ensures e % stride != j % stride
    ensures (j + stride) % stride == j % stride
  {
    var q, r := j / stride, j % stride;
    assert j == q * stride + r;
    Distribute(q, 1, stride);
    DivMod(j + stride, q + 1, r, stride);
    if r + (e - j) < stride {
      DivMod(e, q, r + (e - j), stride);
    } else {
      DivMod(e, q + 1, r + (e - j) - stride, stride);
    }
  }

  /** Every stride-th entry of q from the first one on. */
  method FillTable(q: seq<Entry>, first: nat, stride: nat, r: Entry) returns (t: seq<Entry>)
    requires first < stride
    ensures t == Fill(q, first, stride, r)
  {
    t := q;
    var j := first;
    DivMod(first, 0, first, stride);
    FirstInStep(first, stride);
    while j < |q|
      invariant first <= j && j % stride == first && |t| == |q|
      invariant forall e :: j <= e < |q| ==> t[e] == q[e]
      invariant forall e :: 0 <= e < j && e < |q| ==> t[e] == if e % stride == first then r else q[e]
    {
      forall e | j < e < j + stride ensures e % stride != first {
        NextInStep(j, stride, e);
      }
      SteppedOn(j, stride);
      t := t[j := r];
      j := j + stride;
    }
  }

  lemma SteppedOn(j: nat, stride: nat)
    requires stride > 0
    ensures (j + stride) % stride == j % stride
  {
    var q, r := j / stride, j % stride;
    assert j == q * stride + r;
    Distribute(q, 1, stride);
    DivMod(j + stride, q + 1, r, stride);
  }

  lemma FirstInStep(first: nat, stride: nat)
    requires first < stride
    ensures forall e :: 0 <= e < first ==> e % stride != first
  {
  }

  // The width of a new table.

  function Min(a: int, b: int): int { if a < b then a else b }

  /**
   * How many bits a table behind w bits needs: all codes up to place end are at most that much
   * longer, or it is as wide as tables get.
   */
  predicate WideEnough(c: seq<nat>, g: nat, l: nat, w: nat, j: nat, end: int) {
    && 1 <= j <= l && w + j <= g < |c|
    && (j == l || w + j == g || end <= Start(c, g, w + j + 1))
  }

  /**
   * The bits of the table behind w bits that the first of a + 1 remaining codes of k bits asks
   * for. If even this one is more than l bits longer, the table is as wide as it asks for.
   */
  method ChooseBits(c: seq<nat>, g: nat, l: nat, k: nat, w: nat, a: nat, ghost end: int) returns (j: nat)
    requires w < k <= g < |c|
    requires end - Start(c, g, k + 1) == (Pow2(k - w) - (a + 1)) * Pow2(g - k)
    ensures k <= w + l ==> k - w <= j && WideEnough(c, g, l, w, j, end)
    ensures k > w + l ==> j == k - w
  {
    hide Start, Pow2;
    var z := if g - w > l then l else g - w;
    j := k - w;
    var f := Pow2(j);
    if f > a + 1 {
      f := f - (a + 1);
      var xp := k;
      if j < z {
        j := j + 1;
        while j < z
          invariant k - w < j <= z && xp == w + j - 1 && f > 0
          invariant end - Start(c, g, w + j) == f * Pow2(g - (w + j - 1))
        {
          ghost var s := w + j;
          Halve(f, g, s);
          f := f * 2;
          xp := xp + 1;
          StartNext(c, g, s);
          Distribute(f, c[xp], Pow2(g - s));
          if f <= c[xp] {
            MulLe(f, c[xp], Pow2(g - s));
            break;
          }
          f := f - c[xp];
          j := j + 1;
        }
      }
    } else {
      Distribute(a + 1, f, Pow2(g - k));
      MulLe(f, a + 1, Pow2(g - k));
      Distribute(f, a + 1, Pow2(g - k));
    }
  }

  lemma Halve(f: nat, g: nat, s: nat)
    requires 1 <= s <= g
    ensures f * Pow2(g - (s - 1)) == (f * 2) * Pow2(g - s)
  {
  }

  // The state of the building: tables, the stack of those along the current code, and the bits before the last of them.

  /** u and x are the table stack and the patterns that lead to them; q is the table being filled. */
  datatype State = State(t: Tables, u: seq<nat>, x: seq<nat>, w: int, q: nat)

  /** No tables yet, at level -1. */
  function NoState(l: nat): State {
    var n: int := l;
    State([], [], [], 0 - n, 0)
  }

  function EndPlace(pre: seq<bool>, g: nat): nat
    requires |pre| <= g
  {
    (Val(pre) + 1) * Pow2(g - |pre|)
  }

  predicate Roomy(p: seq<bool>, need: nat, c: seq<nat>, g: nat, l: nat)
    requires l > 0
  {
    && |p| <= g && |p| % l == 0
    && WideEnough(c, g, l, |p|, need, EndPlace(p, g))
  }

  /** Every table is wide enough. */
  predicate Rooms(pre: seq<seq<bool>>, need: seq<nat>, c: seq<nat>, g: nat, l: nat) {
    && |pre| == |need| && l > 0
    && forall id :: 0 <= id < |pre| ==> Roomy(pre[id], need[id], c, g, l)
  }

  /** The saved patterns are those that lead to the tables on the stack. */
  predicate Patterns(u: seq<nat>, x: seq<nat>, pre: seq<seq<bool>>) {
    |x| == |u| && forall e :: 0 <= e < |u| ==> u[e] < |pre| && x[e] == Num(pre[u[e]])
  }

  ghost predicate Cursor(st: State, pre: seq<seq<bool>>, need: seq<nat>, c: seq<nat>, g: nat, l: nat, code: seq<bool>,
                         i: nat)
  {
    var f := Forest(st.t, pre, need);
    && l > 0 && Shape(f, l) && Stack(f, l, st.u, code)
    && i == Num(code)
    && Patterns(st.u, st.x, pre)
    && (if st.u == [] then st.w + l == 0 else st.w == |pre[st.u[|st.u| - 1]]|) && st.w < |code|
    && Rooms(pre, need, c, g, l)
    && (forall b :: 0 <= b < |code| && st.w + l <= b ==> !code[b])
    && (st.u != [] && |code| <= st.w + l ==> st.q == st.u[|st.u| - 1])
    && (st.u == [] ==> st.t == [])
  }

  /** A code lies between the first and the last place of any of its prefixes. */
  lemma PlaceInside(pre: seq<bool>, code: seq<bool>, g: nat)
    requires pre <= code && |code| <= g
    ensures Place(pre, g) <= Place(code, g) < EndPlace(pre, g)
  {
    hide Val, Pow2;
    var s := code + Zeros(g - |code|);
    ValPadded(code, g - |code|);
    Places(pre, s);
  }

  /** A table too narrow for the current code is as wide as tables get. */
  lemma TopCovers(st: State, pre: seq<seq<bool>>, need: seq<nat>, c: seq<nat>, g: nat, l: nat, code: seq<bool>,
                  i: nat, r: nat)
    requires Cursor(st, pre, need, c, g, l, code, i) && CodeAt(c, g, code, r) && st.u != []
    ensures var x := st.u[|st.u| - 1];
      x < |pre| == |need| && |pre[x]| == st.w && st.w + need[x] <= g && need[x] <= l
      && (|code| > st.w + need[x] ==> need[x] == l)
  {
    hide Val, Pow2, Start, Cursor;
    CursorTop(st, pre, need, c, g, l, code, i);
    var x := st.u[|st.u| - 1];
    PlaceInside(pre[x], code, g);
    if |code| > st.w + need[x] {
      StartMonotonic(c, g, st.w + need[x] + 1, |code|);
    }
  }

  lemma CursorTop(st: State, pre: seq<seq<bool>>, need: seq<nat>, c: seq<nat>, g: nat, l: nat, code: seq<bool>, i: nat)
    requires Cursor(st, pre, need, c, g, l, code, i) && st.u != []
    ensures var x := st.u[|st.u| - 1];
      l > 0 && x < |pre| == |need| && pre[x] <= code && |pre[x]| == st.w && Roomy(pre[x], need[x], c, g, l)
  {
  }

  lemma CanGrow(st: State, pre: seq<seq<bool>>, need: seq<nat>, c: seq<nat>, g: nat, l: nat, code: seq<bool>, i: nat,
                r: nat)
    requires Cursor(st, pre, need, c, g, l, code, i) && CodeAt(c, g, code, r) && st.u != [] && |code| > st.w + l
    ensures Growable(Forest(st.t, pre, need), l, st.u, code, st.u[|st.u| - 1])
  {
    TopCovers(st, pre, need, c, g, l, code, i, r);
    hide Num, Pow2, Val, Start, Roomy;
    var x := st.u[|st.u| - 1];
    NumBound(code[st.w..st.w + l]);
    TopIs(Forest(st.t, pre, need), l, st.u, code);
  }

  /** Behind no h * l bits do all codes run on for more than l bits. */
  predicate NoGap(c: seq<nat>, g: nat, l: nat) {
    && l > 0 && g < |c|
    && forall w :: l <= w && w + l < g && w % l == 0 ==> Pow2(g) < Start(c, g, w + l + 1) + Pow2(g - w)
  }

  /** Bits w and after of code are clear. */
  predicate Clear(code: seq<bool>, w: nat) { forall b :: w <= b < |code| ==> !code[b] }

  lemma ClearPlace(code: seq<bool>, w: nat, g: nat)
    requires w <= |code| <= g && Clear(code, w)
    ensures Place(code, g) == Place(code[..w], g)
    ensures Num(code) == Num(code[..w])
    ensures EndPlace(code[..w], g) == Place(code, g) + Pow2(g - w)
    ensures Place(code, g) + Pow2(g - w) <= Pow2(g)
  {
    hide Val, Pow2, Num;
    var head := code[..w];
    assert code == head + Zeros(|code| - w);
    PlacePadded(head, |code| - w, g);
    NumPadded(head, |code| - w);
    Distribute(Val(head), 1, Pow2(g - w));
    ValBound(head);
    MulLe(Val(head) + 1, Pow2(w), Pow2(g - w));
    Pow2Add(w, g - w);
  }

  lemma CodeStart(c: seq<nat>, g: nat, code: seq<bool>, r: nat)
    requires CodeAt(c, g, code, r)
    ensures Start(c, g, |code|) <= Place(code, g)
    ensures Start(c, g, |code| + 1) == Place(code, g) + (c[|code|] - r) * Pow2(g - |code|)
  {
  }

  /** What ChooseBits is told about the end of the prefix. */
  lemma EndIs(c: seq<nat>, g: nat, code: seq<bool>, r: nat, w: nat, a: nat)
    requires CodeAt(c, g, code, r) && w < |code| && Clear(code, w) && r + a + 1 == c[|code|]
    ensures EndPlace(code[..w], g) - Start(c, g, |code| + 1) == (Pow2(|code| - w) - (a + 1)) * Pow2(g - |code|)
  {
    hide Place, Pow2, EndPlace, Start;
    ClearPlace(code, w, g);
    CodeStart(c, g, code, r);
    Pow2Add(|code| - w, g - |code|);
    Distribute(Pow2(|code| - w), a + 1, Pow2(g - |code|));
  }

  /** The state with a table of j bits added behind st.w + l bits of code. */
  function Grown(st: State, l: nat, code: seq<bool>, i: nat, j: nat): State
    requires 0 <= st.w && st.w + l <= |code| && st.u != [] && st.u[|st.u| - 1] < |st.t|
    requires Num(code[st.w..st.w + l]) < |st.t[st.u[|st.u| - 1]]|
  {
    var x := st.u[|st.u| - 1];
    State(st.t[x := st.t[x][Num(code[st.w..st.w + l]) := Link(l, j, |st.t|)]] + [Blanks(Pow2(j))],
          st.u + [|st.t|], st.x + [i], st.w + l, |st.t|)
  }

  lemma GrownCursor(st: State, pre: seq<seq<bool>>, need: seq<nat>, c: seq<nat>, g: nat, l: nat, code: seq<bool>,
                    i: nat, j: nat)
    requires Cursor(st, pre, need, c, g, l, code, i) && st.u != [] && st.w + l < |code| <= g
    requires Growable(Forest(st.t, pre, need), l, st.u, code, st.u[|st.u| - 1])
    requires WideEnough(c, g, l, st.w + l, j, EndPlace(code[..st.w + l], g))
    ensures Cursor(Grown(st, l, code, i, j), pre + [code[..st.w + l]], need + [j], c, g, l, code, i)
  {
    hide Num, Pow2, Val, Start, Shape, Stack, Rooms, Patterns, Place, Roomy, WideEnough, EndPlace, Growable;
    var f := Forest(st.t, pre, need);
    var x := st.u[|st.u| - 1];
    CursorTop(st, pre, need, c, g, l, code, i);
    GrowShape(f, l, st.u, code, x, j);
    GrowStack(f, l, st.u, code, x, j);
    NextRoom(pre[x], need[x], code[..st.w + l], j, c, g, l);
    ClearPlace(code, st.w + l, g);
    MoreRooms(pre, need, c, g, l, code[..st.w + l], j);
    MorePatterns(st.u, st.x, pre, code[..st.w + l], i);
    GrownIs(f, st, l, code, i, j);
  }

  lemma NextRoom(p: seq<bool>, n: nat, p2: seq<bool>, j: nat, c: seq<nat>, g: nat, l: nat)
    requires l > 0 && Roomy(p, n, c, g, l) && |p2| == |p| + l <= g && WideEnough(c, g, l, |p2|, j, EndPlace(p2, g))
    ensures Roomy(p2, j, c, g, l)
  {
    SteppedOn(|p|, l);
  }

  lemma GrownIs(f: Forest, st: State, l: nat, code: seq<bool>, i: nat, j: nat)
    requires st.u != [] && st.t == f.t && Growable(f, l, st.u, code, st.u[|st.u| - 1])
    requires f.pre[st.u[|st.u| - 1]] <= code && |f.pre[st.u[|st.u| - 1]]| == st.w
    ensures 0 <= st.w && st.w + l <= |code| && Num(code[st.w..st.w + l]) < |st.t[st.u[|st.u| - 1]]|
    ensures var st2 := Grown(st, l, code, i, j);
      && Forest(st2.t, f.pre + [code[..st.w + l]], f.need + [j]) == Grow(f, l, st.u[|st.u| - 1], code, j)
      && |f.pre| == |f.t|
  {
  }

  lemma MoreRooms(pre: seq<seq<bool>>, need: seq<nat>, c: seq<nat>, g: nat, l: nat, p: seq<bool>, j: nat)
    requires Rooms(pre, need, c, g, l) && Roomy(p, j, c, g, l)
    ensures Rooms(pre + [p], need + [j], c, g, l)
  {
    hide Roomy;
  }

  lemma MorePatterns(u: seq<nat>, x: seq<nat>, pre: seq<seq<bool>>, p: seq<bool>, i: nat)
    requires Patterns(u, x, pre) && i == Num(p)
    ensures Patterns(u + [|pre|], x + [i], pre + [p])
  {
  }

  /** The first table is as wide as the walk assumes. */
  lemma RootWidth(c: seq<nat>, g: nat, l: nat, j: nat)
    requires Layout(c, g) && 1 <= l <= g && WideEnough(c, g, l, 0, j, Pow2(g))
    ensures j == l
  {
    assert Pow2(0) == 1;
    hide Pow2;
    StartNext(c, g, g);
    if j < l {
      StartMonotonic(c, g, j + 1, g);
    }
  }

  lemma RootCursor(code: seq<bool>, c: seq<nat>, g: nat, l: nat)
    requires Layout(c, g) && 1 <= l <= g && 0 < |code| <= l && Clear(code, 0)
    ensures Cursor(State([Blanks(Pow2(l))], [0], [0], 0, 0), [[]], [l], c, g, l, code, 0)
  {
    ClearPlace(code, 0, g);
    assert code[..0] == [];
    hide Pow2, Val, Start;
    var f := Forest([Blanks(Pow2(l))], [[]], [l]);
    assert Shape(f, l);
    assert |f.pre[0]| % l == 0;
  }

  /** The state with the tables as they would be if none were wider than it needs to be. */
  function Ideal(st: State, f: Forest): State { st.(t := f.t) }

  /** The new table that the first code behind a prefix asks for. */
  method NewTable(st: State, c: seq<nat>, g: nat, l: nat, k: nat, a: nat, i: nat,
                  ghost f: Forest, ghost ws: seq<nat>, ghost code: seq<bool>, ghost r: nat, ghost v: seq<nat>)
    returns (st2: State, ghost f2: Forest, ghost ws2: seq<nat>)
    requires Layout(c, g) && l <= g && Cursor(Ideal(st, f), f.pre, f.need, c, g, l, code, i)
    requires CodeAt(c, g, code, r) && |code| == k && r + a + 1 == c[k] && k > st.w + l && (st.u == [] ==> k <= l)
    requires Done(f.t, c, v, g, l, Place(code, g)) && Real(st.t, f, ws, c, g, l, k)
    ensures Cursor(Ideal(st2, f2), f2.pre, f2.need, c, g, l, code, i) && st2.w == st.w + l && st2.u != []
    ensures Done(f2.t, c, v, g, l, Place(code, g)) && Real(st2.t, f2, ws2, c, g, l, k)
  {
    hide Num, Pow2, Val, Start, Place, EndPlace, Shape, Stack, Done, Layout, Walk, Real, Rooms, WideEnough, Grow;
    ghost var now := Ideal(st, f);
    var w := st.w + l;
    BitsAfter(now, f.pre, f.need, c, g, l, code, i);
    EndIs(c, g, code, r, w, a);
    var j := ChooseBits(c, g, l, k, w, a, EndPlace(code[..w], g));
    ghost var n := if j > l then l else j;
    NeededWidth(c, g, l, k, w, j, EndPlace(code[..w], g));
    ws2 := ws + [j];
    if |st.u| == 0 {
      RootNeeds(c, g, l, code, n, now, f.pre, f.need, i);
      st2 := State([Blanks(Pow2(j))], [0], [0], 0, 0);
      f2 := Forest([Blanks(Pow2(l))], [[]], [l]);
      RootCursor(code, c, g, l);
      NothingDone(f2.t, c, v, g, l, code);
      RootReal(st.t, f, ws, c, g, l, k);
      assert ws2 == [l];
    } else {
      CanGrow(now, f.pre, f.need, c, g, l, code, i, r);
      CursorTop(now, f.pre, f.need, c, g, l, code, i);
      var x, e := st.u[|st.u| - 1], i / Pow2(st.w);
      LinkIndex(code, st.w, l);
      NewReal(st.t, f, ws, c, g, l, code, r, x, st.u, n, j);
      st2 := State(st.t[x := st.t[x][e := Link(l, j, |st.t|)]] + [Blanks(Pow2(j))],
                   st.u + [|st.t|], st.x + [i], w, |st.t|);
      f2 := Grow(f, l, x, code, n);
      GrownCursor(now, f.pre, f.need, c, g, l, code, i, n);
      GrownIs(f, now, l, code, i, n);
      GrowDone(f, l, st.u, code, x, n, c, v, g);
    }
  }

  /** A table that is too wide needs l bits. */
  lemma NeededWidth(c: seq<nat>, g: nat, l: nat, k: nat, w: nat, j: nat, end: int)
    requires l > 0 && w < k <= g < |c|
    requires k <= w + l ==> WideEnough(c, g, l, w, j, end)
    requires k > w + l ==> j == k - w
    ensures WideEnough(c, g, l, w, if j > l then l else j, end)
    ensures k <= w + l <==> j <= l
  {
    hide Start;
  }

  lemma RootReal(t: Tables, f: Forest, w: seq<nat>, c: seq<nat>, g: nat, l: nat, k: nat)
    requires Real(t, f, w, c, g, l, k) && f.t == [] && g < |c|
    ensures w == []
    ensures Real([Blanks(Pow2(l))], Forest([Blanks(Pow2(l))], [[]], [l]), [l], c, g, l, k)
  {
    hide Pow2;
  }

  lemma NewReal(t: Tables, f: Forest, ws: seq<nat>, c: seq<nat>, g: nat, l: nat, code: seq<bool>, r: nat,
                x: nat, u: seq<nat>, n: nat, j: nat)
    requires Real(t, f, ws, c, g, l, |code|) && Growable(f, l, u, code, x) && CodeAt(c, g, code, r)
    requires |f.pre[x]| + l < |code| && Clear(code, |f.pre[x]| + l) && l > 0
    requires n == (if j > l then l else j) && (|code| <= |f.pre[x]| + l + l <==> j <= l)
    ensures |t| == |f.t| && Num(code[|f.pre[x]|..|f.pre[x]| + l]) < |t[x]|
    ensures var e := Num(code[|f.pre[x]|..|f.pre[x]| + l]);
      Real(t[x := t[x][e := Link(l, j, |t|)]] + [Blanks(Pow2(j))], Grow(f, l, x, code, n), ws + [j], c, g, l, |code|)
  {
    hide Num, Pow2, Place, Start, Shape, Stack, CodeAt, Built, FairWidths, FairWidth;
    var w := |f.pre[x]| + l;
    var e := Num(code[|f.pre[x]|..w]);
    BuiltSize(t, f, ws);
    BuiltMore(t, f, l, ws, x, e, code[..w], n, j);
    NewFair(c, g, l, code, r, w, n, j);
    MoreFair(f, ws, c, g, l, |code|, Grow(f, l, x, code, n).t, code[..w], n, j);
  }

  lemma BuiltSize(t: Tables, f: Forest, w: seq<nat>)
    requires Built(t, f, w)
    ensures |t| == |f.t| == |w|
  {
  }

  /** The first code behind w bits is one that is not too long for the table, if any is. */
  lemma NewFair(c: seq<nat>, g: nat, l: nat, code: seq<bool>, r: nat, w: nat, n: nat, j: nat)
    requires CodeAt(c, g, code, r) && 0 < w < |code| && Clear(code, w) && l > 0
    requires n == (if j > l then l else j) && (|code| <= w + l <==> j <= l)
    ensures FairWidth(code[..w], n, j, c, g, l, |code|)
  {
    CodeLength(c, g, code, r);
    ClearPlace(code, w, g);
    CodeStart(c, g, code, r);
    hide Place, Start, Pow2, EndPlace, CodeAt;
    if |code| > w + l {
      StartMonotonic(c, g, w + l + 1, |code|);
    } else if w + l < g {
      StartMonotonic(c, g, |code| + 1, w + l + 1);
      MulLe(1, c[|code|] - r, Pow2(g - |code|));
    }
  }

  lemma LinkIndex(code: seq<bool>, w: nat, l: nat)
    requires w + l <= |code| && Clear(code, w + l)
    ensures Num(code) / Pow2(w) == Num(code[w..w + l])
  {
    hide Num, Pow2;
    NumSplit(code, w);
    assert code[w..] == code[w..w + l] + Zeros(|code| - w - l);
    NumPadded(code[w..w + l], |code| - w - l);
  }

  lemma BitsAfter(st: State, pre: seq<seq<bool>>, need: seq<nat>, c: seq<nat>, g: nat, l: nat, code: seq<bool>, i: nat)
    requires Cursor(st, pre, need, c, g, l, code, i) && |code| > st.w + l
    ensures 0 <= st.w + l && Clear(code, st.w + l) && (st.u != [] ==> 0 <= st.w)
  {
    hide Num, Pow2, Val, Start, Place, EndPlace, Shape, WideEnough, CodeAt;
    if st.u != [] {
      TopIs(Forest(st.t, pre, need), l, st.u, code);
    }
  }

  lemma RootNeeds(c: seq<nat>, g: nat, l: nat, code: seq<bool>, j: nat, st: State, pre: seq<seq<bool>>,
                  need: seq<nat>, i: nat)
    requires Layout(c, g) && l <= g && Cursor(st, pre, need, c, g, l, code, i) && st.u == [] && |code| <= g
    requires WideEnough(c, g, l, 0, j, EndPlace(code[..0], g))
    ensures j == l && pre == [] && need == [] && i == 0 && code[..0] == [] && st.w + l == 0
  {
    hide Pow2, Start;
    ClearPlace(code, 0, g);
    assert code == Zeros(|code|);
    NumZeros(|code|);
    ValZeros(|code|);
    RootWidth(c, g, l, j);
  }

  lemma NothingDone(t: Tables, c: seq<nat>, v: seq<nat>, g: nat, l: nat, code: seq<bool>)
    requires Clear(code, 0) && |code| <= g
    ensures Done(t, c, v, g, l, Place(code, g))
  {
    assert code == Zeros(|code|);
    ValZeros(|code|);
  }

  /** The entries for the current code, in the table on top of the stack. */
  method FillCode(st: State, c: seq<nat>, v: seq<nat>, g: nat, l: nat, k: nat, p: nat, i: nat,
                  ghost f: Forest, ghost ws: seq<nat>, ghost code: seq<bool>, ghost r: nat)
    returns (st2: State, ghost f2: Forest)
    requires Cursor(Ideal(st, f), f.pre, f.need, c, g, l, code, i) && st.u != [] && |code| == k <= st.w + l
    requires CodeAt(c, g, code, r) && p == Min(Off(c, k) + r, |v|)
    requires Done(f.t, c, v, g, l, Place(code, g)) && Real(st.t, f, ws, c, g, l, k)
    ensures f2.pre == f.pre && f2.need == f.need && st2.u == st.u && st2.w == st.w
    ensures Cursor(Ideal(st2, f2), f2.pre, f2.need, c, g, l, code, i)
    ensures Done(f2.t, c, v, g, l, Place(code, g) + Pow2(g - k)) && Real(st2.t, f2, ws, c, g, l, k)
  {
    hide Num, Pow2, Val, Start, Place, Shape, Stack, Done, Walk, Off, Fill, CodeAt, Rooms, Patterns, Real;
    TopIs(f, l, st.u, code);
    TopCovers(Ideal(st, f), f.pre, f.need, c, g, l, code, i, r);
    FillIndex(code, st.w);
    var bits := k - st.w;
    var e := if p >= |v| then Invalid(bits) else Leaf(bits, v[p]);
    FilledReal(st.t, f, ws, c, g, l, k, st.q, Num(code[st.w..]), Pow2(bits), e);
    var t := FillTable(st.t[st.q], i / Pow2(st.w), Pow2(bits), e);
    FillDone(f, l, st.u, code, st.q, c, v, g, r);
    st2 := st.(t := st.t[st.q := t]);
    f2 := FillTop(f, st.q, Num(code[st.w..]), Pow2(bits), e);
  }

  /** A table that gets a code of k bits is as wide as it needs to be. */
  lemma FilledReal(t: Tables, f: Forest, w: seq<nat>, c: seq<nat>, g: nat, l: nat, k: nat,
                   x: nat, first: nat, stride: nat, r: Entry)
    requires Real(t, f, w, c, g, l, k) && x < |f.t| && k <= |f.pre[x]| + l && |f.t[x]| == Pow2(f.need[x])
    requires stride > 0 && !r.Link?
    ensures x < |t| && Real(t[x := Fill(t[x], first, stride, r)], FillTop(f, x, first, stride, r), w, c, g, l, k)
  {
    hide Pow2, Place, Start, Built, Fill, FairWidth;
    BuiltSize(t, f, w);
    assert w[x] == f.need[x] by {
      FairIs(f.pre[x], f.need[x], w[x], c, g, l, k);
    }
    BuiltFill(t, f, w, x, first, stride, r);
  }

  lemma FairIs(p: seq<bool>, need: nat, n: nat, c: seq<nat>, g: nat, l: nat, k: nat)
    requires FairWidth(p, need, n, c, g, l, k) && k <= |p| + l
    ensures n == need
  {
  }

  lemma FillIndex(code: seq<bool>, w: nat)
    requires w <= |code|
    ensures Num(code) / Pow2(w) == Num(code[w..]) < Pow2(|code| - w)
  {
    hide Num, Pow2;
    NumSplit(code, w);
    NumBound(code[w..]);
  }

  // On to the next code.

  lemma {:induction false} StackLengths(f: Forest, l: nat, u: seq<nat>, code: seq<bool>, i: nat, j: nat)
    requires |f.pre| == |f.need| == |f.t| && Stack(f, l, u, code) && i <= j < |u|
    ensures u[i] < |f.pre| && u[j] < |f.pre| && f.pre[u[i]] <= f.pre[u[j]]
    ensures i < j ==> |f.pre[u[i]]| + l <= |f.pre[u[j]]|
    decreases j
  {
    if i < j {
      StackLengths(f, l, u, code, i, j - 1);
      assert Linked(f, l, u[j - 1], u[j]);
      assert f.pre[u[j - 1]] <= code && f.pre[u[j]] <= code;
    }
  }

  /** The stack without the tables the next code does not go through. */
  lemma StackKept(f: Forest, l: nat, u: seq<nat>, code: seq<bool>, code2: seq<bool>, n: nat)
    requires |f.pre| == |f.need| == |f.t| && Stack(f, l, u, code) && 0 < n <= |u| && u[n - 1] < |f.t|
    requires f.pre[u[n - 1]] <= code2
    ensures Stack(f, l, u[..n], code2)
  {
    forall i | 0 <= i < n ensures u[i] < |f.t| && f.pre[u[i]] <= code2 {
      StackLengths(f, l, u, code, i, n - 1);
    }
  }

  /** From the first changed bit on, the next code is clear. */
  lemma NextClear(code: seq<bool>, w: nat)
    requires w <= |code| && LastFalse(code) >= 0
    ensures Next(code)[..w] == code[..w] || Clear(Next(code), w)
  {
  }

  /** The state with only the first n tables left on the stack. */
  function Popped(st: State, n: nat, w: int): State
    requires n <= |st.u| == |st.x|
  {
    State(st.t, st.u[..n], st.x[..n], w, st.q)
  }

  /** The first n tables of the stack are those the next code goes through. */
  predicate Stays(st: State, pre: seq<seq<bool>>, l: nat, code2: seq<bool>, n: nat, w: nat) {
    && 0 < n <= |st.u| == |st.x| && st.u[n - 1] < |pre|
    && w <= |code2| && pre[st.u[n - 1]] == code2[..w]
    && (n < |st.u| ==> st.u[n] < |pre| && w + l <= |code2| && |pre[st.u[n]]| == w + l && pre[st.u[n]] != code2[..w + l])
  }

  lemma AdvancedCursor(st: State, pre: seq<seq<bool>>, need: seq<nat>, c: seq<nat>, g: nat, l: nat, code: seq<bool>,
                       i: nat,
                       code2: seq<bool>, n: nat, w: nat)
    requires Cursor(st, pre, need, c, g, l, code, i) && |code| <= st.w + l
    requires code2 == Next(code) && LastFalse(code) >= 0 && Stays(st, pre, l, code2, n, w)
    ensures Cursor(Popped(st, n, w), pre, need, c, g, l, code2, Num(code2))
  {
    hide Num, Next, LastFalse, Rooms, Pow2, Stack, Shape, Patterns;
    var f := Forest(st.t, pre, need);
    TopIs(f, l, st.u, code);
    StaysBounds(st, pre, need, c, g, l, code, i, code2, n, w);
    StackKept(f, l, st.u, code, code2, n);
    PatternsKept(st.u, st.x, pre, n);
  }

  lemma PatternsKept(u: seq<nat>, x: seq<nat>, pre: seq<seq<bool>>, n: nat)
    requires Patterns(u, x, pre) && n <= |u|
    ensures Patterns(u[..n], x[..n], pre)
  {
  }

  lemma StaysBounds(st: State, pre: seq<seq<bool>>, need: seq<nat>, c: seq<nat>, g: nat, l: nat, code: seq<bool>,
                    i: nat,
                    code2: seq<bool>, n: nat, w: nat)
    requires Cursor(st, pre, need, c, g, l, code, i) && |code| <= st.w + l
    requires code2 == Next(code) && LastFalse(code) >= 0 && Stays(st, pre, l, code2, n, w)
    ensures w < |code|
    ensures if n < |st.u| then w + l < |code| && Clear(code2, w + l) else w == st.w
  {
    hide Num, Next, LastFalse, Rooms, Pow2, Shape, Patterns, Clear, Stack;
    var f := Forest(st.t, pre, need);
    TopIs(f, l, st.u, code);
    StackLengths(f, l, st.u, code, n - 1, |st.u| - 1);
    if n < |st.u| {
      StackLengths(f, l, st.u, code, n, |st.u| - 1);
      assert pre[st.u[n]] == code[..w + l];
      NextClear(code, w + l);
      assert code2[..w + l] != code[..w + l];
    }
  }

  /** The pattern of a table on the stack tells whether the next code still goes through it. */
  lemma PatternTells(st: State, pre: seq<seq<bool>>, need: seq<nat>, c: seq<nat>, g: nat, l: nat, code: seq<bool>,
                     i: nat, n: nat)
    requires Cursor(st, pre, need, c, g, l, code, i) && 0 < n <= |st.u|
    ensures |st.x| == |st.u| && st.u[n - 1] < |pre| && |pre[st.u[n - 1]]| <= |code|
    ensures n == |st.u| ==> st.w == |pre[st.u[n - 1]]|
    ensures var w := |pre[st.u[n - 1]]|;
      Num(Next(code)) % Pow2(w) == st.x[n - 1] <==> pre[st.u[n - 1]] == Next(code)[..w]
    ensures if n == 1 then pre[st.u[0]] == [] else st.u[n - 2] < |pre| && |pre[st.u[n - 1]]| == |pre[st.u[n - 2]]| + l
  {
    hide Pow2, Shape, Next, Rooms, Num;
    var f := Forest(st.t, pre, need);
    TopIs(f, l, st.u, code);
    assert pre[st.u[n - 1]] <= code;
    var w := |pre[st.u[n - 1]]|;
    NumSplit(Next(code), w);
    if Num(Next(code)[..w]) == st.x[n - 1] {
      NumInjective(Next(code)[..w], pre[st.u[n - 1]]);
    }
    if n > 1 {
      assert Linked(f, l, st.u[n - 2], st.u[n - 1]);
    }
  }

  /** Count the code on, and drop the tables that are finished. */
  method Advance(st: State, c: seq<nat>, g: nat, l: nat, k: nat, i: nat, ghost f: Forest, ghost code: seq<bool>)
    returns (st2: State, i2: nat)
    requires Cursor(Ideal(st, f), f.pre, f.need, c, g, l, code, i) && st.u != [] && |code| == k <= st.w + l && k > 0
    ensures st2.t == st.t && i2 == Num(Next(code)) && st2.u != []
    ensures LastFalse(code) >= 0 ==> Cursor(Ideal(st2, f), f.pre, f.need, c, g, l, Next(code), i2)
  {
    i2 := BackIncrement(i, k, code);
    hide Cursor, Num, Pow2, Next, LastFalse, Stays;
    var n, w := BackUp(st, c, g, l, i, i2, f, code);
    StaysSome(Ideal(st, f), f.pre, l, Next(code), n, w);
    st2 := State(st.t, st.u[..n], st.x[..n], w, st.q);
    if LastFalse(code) >= 0 {
      AdvancedCursor(Ideal(st, f), f.pre, f.need, c, g, l, code, i, Next(code), n, w);
    }
  }

  lemma StaysSome(st: State, pre: seq<seq<bool>>, l: nat, code2: seq<bool>, n: nat, w: nat)
    requires Stays(st, pre, l, code2, n, w)
    ensures 0 < n <= |st.u| == |st.x|
  {
  }

  /** Back over finished tables. */
  method BackUp(st: State, c: seq<nat>, g: nat, l: nat, i: nat, i2: nat, ghost f: Forest, ghost code: seq<bool>)
    returns (n: nat, w: nat)
    requires Cursor(Ideal(st, f), f.pre, f.need, c, g, l, code, i) && st.u != [] && i2 == Num(Next(code))
    ensures Stays(Ideal(st, f), f.pre, l, Next(code), n, w)
  {
    hide Cursor, Num, Pow2, Next;
    ghost var now, code2 := Ideal(st, f), Next(code);
    PatternTells(now, f.pre, f.need, c, g, l, code, i, |st.u|);
    n, w := |st.u|, st.w;
    while i2 % Pow2(w) != st.x[n - 1]
      invariant 0 < n <= |st.u| == |st.x| && Pending(now, f.pre, l, code2, n, w)
      decreases n
    {
      PatternTells(now, f.pre, f.need, c, g, l, code, i, n);
      n, w := n - 1, w - l;
    }
    PatternTells(now, f.pre, f.need, c, g, l, code, i, n);
  }

  /** The tables from n on are off the path of the next code. */
  predicate Pending(st: State, pre: seq<seq<bool>>, l: nat, code2: seq<bool>, n: nat, w: nat) {
    && 0 < n <= |st.u| && st.u[n - 1] < |pre| && |pre[st.u[n - 1]]| == w
    && (n < |st.u| ==> st.u[n] < |pre| && w + l <= |code2| && |pre[st.u[n]]| == w + l && pre[st.u[n]] != code2[..w + l])
  }

  // The loops over all codes.

  lemma NextPlace(code: seq<bool>, g: nat)
    requires |code| <= g
    ensures LastFalse(code) >= 0 ==> Place(Next(code), g) == Place(code, g) + Pow2(g - |code|)
    ensures LastFalse(code) < 0 ==> Place(code, g) + Pow2(g - |code|) == Pow2(g)
  {
    hide Val, Pow2, Next, LastFalse;
    ValNext(code);
    Distribute(Val(code), 1, Pow2(g - |code|));
    Pow2Add(|code|, g - |code|);
  }

  /** There is a first table, and every table is as its place asks for. */
  predicate Framed(f: Forest, c: seq<nat>, g: nat, l: nat) {
    && Shape(f, l) && Rooms(f.pre, f.need, c, g, l)
    && f.t != [] && f.pre[0] == [] && f.need[0] == l
  }

  /**
   * If no table were wider than it needs to be, all places before place would be decoded. Unless
   * that is all of them the state is at the code there.
   */
  ghost predicate Ready(st: State, f: Forest, ws: seq<nat>, c: seq<nat>, v: seq<nat>, g: nat, l: nat,
                        code: seq<bool>, i: nat, k: nat, place: nat)
  {
    && Done(f.t, c, v, g, l, place) && (st.u == [] || Framed(f, c, g, l)) && Real(st.t, f, ws, c, g, l, k)
    && (place < Pow2(g) ==>
        |code| == k <= g && Place(code, g) == place && Cursor(Ideal(st, f), f.pre, f.need, c, g, l, code, i))
  }

  /** One code: the tables it needs, its entries, and on to the next. */
  method PlaceCode(st: State, c: seq<nat>, v: seq<nat>, g: nat, l: nat, k: nat, a: nat, p: nat, i: nat,
                   ghost f: Forest, ghost ws: seq<nat>, ghost code: seq<bool>, ghost r: nat)
    returns (st2: State, i2: nat, ghost f2: Forest, ghost ws2: seq<nat>)
    requires Layout(c, g) && l <= g && CodeAt(c, g, code, r) && |code| == k
    requires Place(code, g) < Pow2(g) && Ready(st, f, ws, c, v, g, l, code, i, k, Place(code, g))
    requires r + a + 1 == c[k] && p == Min(Off(c, k) + r, |v|) && (st.u == [] ==> k <= l)
    ensures st2.u != []
    ensures Ready(st2, f2, ws2, c, v, g, l, Next(code), i2, k, Place(code, g) + Pow2(g - k))
  {
    hide Cursor, Ready, Done, Pow2, Place, Layout, CodeAt, Off, LastFalse, Next, Num, Real;
    CodeLength(c, g, code, r);
    ReadyCursor(st, f, ws, c, v, g, l, code, i, k);
    st2, i2, f2, ws2 := st, i, f, ws;
    while k > st2.w + l
      invariant Cursor(Ideal(st2, f2), f2.pre, f2.need, c, g, l, code, i2) && Done(f2.t, c, v, g, l, Place(code, g))
      invariant Real(st2.t, f2, ws2, c, g, l, k)
      invariant st2.u == [] ==> k <= l && k > st2.w + l
      decreases k - st2.w
    {
      st2, f2, ws2 := NewTable(st2, c, g, l, k, a, i2, f2, ws2, code, r, v);
    }
    st2, f2 := FillCode(st2, c, v, g, l, k, p, i2, f2, ws2, code, r);
    CursorFramed(Ideal(st2, f2), f2.pre, f2.need, c, g, l, code, i2);
    st2, i2 := Advance(st2, c, g, l, k, i2, f2, code);
    NextReady(st2, f2, ws2, c, v, g, l, code, i2);
  }

  lemma ReadyCursor(st: State, f: Forest, ws: seq<nat>, c: seq<nat>, v: seq<nat>, g: nat, l: nat,
                    code: seq<bool>, i: nat, k: nat)
    requires 0 < |code| == k <= g && Place(code, g) < Pow2(g)
    requires Ready(st, f, ws, c, v, g, l, code, i, k, Place(code, g))
    ensures Cursor(Ideal(st, f), f.pre, f.need, c, g, l, code, i) && Done(f.t, c, v, g, l, Place(code, g))
    ensures Real(st.t, f, ws, c, g, l, k) && l > 0
    ensures st.u == [] ==> k > st.w + l
  {
    hide Done, Place, Pow2, Shape, Stack, Rooms, Real;
  }

  lemma CursorFramed(st: State, pre: seq<seq<bool>>, need: seq<nat>, c: seq<nat>, g: nat, l: nat, code: seq<bool>,
                     i: nat)
    requires Cursor(st, pre, need, c, g, l, code, i) && st.u != []
    ensures Framed(Forest(st.t, pre, need), c, g, l)
  {
    hide Num, Rooms, Patterns;
    TopIs(Forest(st.t, pre, need), l, st.u, code);
  }

  lemma NextReady(st: State, f: Forest, ws: seq<nat>, c: seq<nat>, v: seq<nat>, g: nat, l: nat,
                  code: seq<bool>, i: nat)
    requires |code| <= g && Done(f.t, c, v, g, l, Place(code, g) + Pow2(g - |code|)) && Framed(f, c, g, l)
    requires Real(st.t, f, ws, c, g, l, |code|)
    requires LastFalse(code) >= 0 ==> Cursor(Ideal(st, f), f.pre, f.need, c, g, l, Next(code), i)
    ensures Ready(st, f, ws, c, v, g, l, Next(code), i, |code|, Place(code, g) + Pow2(g - |code|))
  {
    hide Cursor, Done, Pow2, Place, LastFalse, Next, Real;
    NextPlace(code, g);
  }

  lemma CodeLength(c: seq<nat>, g: nat, code: seq<bool>, r: nat)
    requires CodeAt(c, g, code, r)
    ensures 1 <= |code| <= g
  {
  }

  lemma {:induction false} StartZero(c: seq<nat>, g: nat, k: nat)
    requires 1 <= k <= g < |c| && forall j :: 1 <= j < k ==> c[j] == 0
    ensures Start(c, g, k) == 0 && Off(c, k) == 0
  {
    if k > 1 {
      StartZero(c, g, k - 1);
    }
  }

  /** Where the r-th code of k bits is. */
  function CodePlace(c: seq<nat>, g: nat, k: nat, r: nat): nat
    requires k <= g < |c|
  {
    Start(c, g, k) + r * Pow2(g - k)
  }

  lemma AtCode(c: seq<nat>, g: nat, k: nat, r: nat)
    requires Layout(c, g) && 1 <= k <= g && r < c[k]
    ensures CodePlace(c, g, k, r) < Pow2(g)
    ensures CodePlace(c, g, k, r) + Pow2(g - k) == CodePlace(c, g, k, r + 1)
  {
    hide Start;
    LastPlace(c, g, k, r);
    StartMonotonic(c, g, k + 1, g + 1);
    Distribute(r, 1, Pow2(g - k));
  }

  lemma CodePlaces(c: seq<nat>, g: nat, k: nat)
    requires 1 <= k <= g < |c|
    ensures CodePlace(c, g, k, 0) == Start(c, g, k)
    ensures CodePlace(c, g, k, c[k]) == Start(c, g, k + 1)
  {
  }

  /** A code is its own successor's start when the length goes up: append a zero. */
  lemma Longer(st: State, f: Forest, ws: seq<nat>, c: seq<nat>, v: seq<nat>, g: nat, l: nat,
               code: seq<bool>, i: nat, k: nat, place: nat)
    requires Ready(st, f, ws, c, v, g, l, code, i, k, place) && k < g
    ensures Ready(st, f, ws, c, v, g, l, code + [false], i, k + 1, place)
  {
    hide Done, Shape, Rooms, Pow2, Num, Val, Real;
    RealLonger(st.t, f, ws, c, g, l, k);
    if place < Pow2(g) {
      assert [false] == Zeros(1);
      NumPadded(code, 1);
      PlacePadded(code, 1, g);
    }
  }

  /** All codes of k bits. */
  method PlaceLength(st: State, c: seq<nat>, v: seq<nat>, g: nat, l: nat, k: nat, p: nat, i: nat,
                     ghost f: Forest, ghost ws: seq<nat>, ghost code: seq<bool>)
    returns (st2: State, p2: nat, i2: nat, ghost f2: Forest, ghost ws2: seq<nat>, ghost code2: seq<bool>)
    requires Layout(c, g) && l <= g && 1 <= k <= g
    requires Ready(st, f, ws, c, v, g, l, code, i, k, Start(c, g, k))
    requires p == Min(Off(c, k), |v|) && (st.u == [] ==> k <= l)
    ensures Ready(st2, f2, ws2, c, v, g, l, code2, i2, k, Start(c, g, k + 1))
    ensures p2 == Min(Off(c, k + 1), |v|) && (st2.u == [] ==> st.u == [] && c[k] == 0)
  {
    hide Ready, Start, Off, Pow2, Layout, Next, Place, CodePlace, CodeAt, LastFalse;
    LayoutEnd(c, g);
    st2, p2, i2, f2, ws2, code2 := st, p, i, f, ws, code;
    var a := c[k];
    ghost var r: nat := 0;
    CodePlaces(c, g, k);
    while a > 0
      invariant r + a == c[k] && p2 == Min(Off(c, k) + r, |v|)
      invariant Ready(st2, f2, ws2, c, v, g, l, code2, i2, k, CodePlace(c, g, k, r))
      invariant st2.u == [] ==> st.u == [] && k <= l && r == 0
    {
      a := a - 1;
      AtCode(c, g, k, r);
      IsCode(st2, f2, ws2, c, v, g, l, code2, i2, k, r);
      st2, i2, f2, ws2 := PlaceCode(st2, c, v, g, l, k, a, p2, i2, f2, ws2, code2, r);
      if p2 < |v| {
        p2 := p2 + 1;
      }
      r, code2 := r + 1, Next(code2);
    }
    OffNext(c, k);
  }

  /** The tables for the codes c, whose symbols are v; f says what they would be without the too wide ones. */
  method BuildTables(c: seq<nat>, v: seq<nat>, g: nat, l: nat, kmin: nat)
    returns (t: Tables, ghost f: Forest, ghost ws: seq<nat>)
    requires Layout(c, g) && 1 <= kmin <= l <= g
    requires c[kmin] > 0 && forall j :: 1 <= j < kmin ==> c[j] == 0
    ensures Done(f.t, c, v, g, l, Pow2(g)) && Framed(f, c, g, l) && Real(t, f, ws, c, g, l, g)
  {
    hide Ready, Start, Off, Pow2, Done, Layout, NoState, Zeros, Framed, Real;
    var st, i: nat, p: nat, k: nat := NoState(l), 0, 0, kmin;
    ghost var code := Zeros(kmin);
    f, ws := Forest([], [], []), [];
    LayoutEnd(c, g);
    StartZero(c, g, kmin);
    FirstReady(c, v, g, l, kmin);
    while k < g
      invariant kmin <= k <= g && p == Min(Off(c, k), |v|)
      invariant Ready(st, f, ws, c, v, g, l, code, i, k, Start(c, g, k))
      invariant st.u == [] ==> k == kmin
    {
      st, p, i, f, ws, code := PlaceLength(st, c, v, g, l, k, p, i, f, ws, code);
      Longer(st, f, ws, c, v, g, l, code, i, k, Start(c, g, k + 1));
      code := code + [false];
      k := k + 1;
    }
    st, p, i, f, ws, code := PlaceLength(st, c, v, g, l, k, p, i, f, ws, code);
    ReadyDone(st, f, ws, c, v, g, l, code, i, k, Start(c, g, g + 1));
    t := st.t;
  }

  lemma LayoutEnd(c: seq<nat>, g: nat)
    requires Layout(c, g)
    ensures 1 <= g < |c| && Start(c, g, g + 1) == Pow2(g)
  {
  }

  lemma ReadyDone(st: State, f: Forest, ws: seq<nat>, c: seq<nat>, v: seq<nat>, g: nat, l: nat,
                  code: seq<bool>, i: nat, k: nat, place: nat)
    requires Ready(st, f, ws, c, v, g, l, code, i, k, place)
    ensures Done(f.t, c, v, g, l, place) && (st.u == [] || Framed(f, c, g, l)) && Real(st.t, f, ws, c, g, l, k)
  {
  }

  lemma IsCode(st: State, f: Forest, ws: seq<nat>, c: seq<nat>, v: seq<nat>, g: nat, l: nat,
               code: seq<bool>, i: nat, k: nat, r: nat)
    requires 1 <= k <= g < |c| && r < c[k]
    requires Ready(st, f, ws, c, v, g, l, code, i, k, CodePlace(c, g, k, r)) && CodePlace(c, g, k, r) < Pow2(g)
    ensures |code| == k && CodeAt(c, g, code, r) && Place(code, g) == CodePlace(c, g, k, r)
  {
    hide Cursor, Done, Real, Framed;
  }

  lemma FirstReady(c: seq<nat>, v: seq<nat>, g: nat, l: nat, k: nat)
    requires 1 <= k <= g < |c| && l > 0
    ensures Ready(NoState(l), Forest([], [], []), [], c, v, g, l, Zeros(k), 0, k, 0)
  {
    NumZeros(k);
    ValZeros(k);
  }
}
