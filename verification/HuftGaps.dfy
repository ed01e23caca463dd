/**
 * When the tables of huft_build are right: exactly if behind no table all codes run on for more
 * bits than a link consumes. Otherwise the string of all ones runs into a hole.
 */
module HuftGaps {
  import opened Arith
  import opened Bits
  import opened BitOrder
  import opened HuffmanCodes
  import opened HuffmanTables
  import opened HuftWidths
  import opened HuftBuild

  predicate AllOnes(s: seq<bool>) { forall i :: 0 <= i < |s| ==> s[i] }

  /** The walk of all ones gets stuck. */
  ghost predicate Deaf(t: Tables, l: nat, g: nat) {
    forall s: seq<bool> :: |s| >= g && AllOnes(s) ==> Walk(t, 0, l, s, 0) == Stuck
  }

  // Without a gap no table is too wide.

  lemma PrefixEnd(p: seq<bool>, g: nat)
    requires |p| <= g
    ensures Place(p, g) + Pow2(g - |p|) <= Pow2(g)
    ensures AllOnes(p) ==> Place(p, g) + Pow2(g - |p|) == Pow2(g)
  {
    hide Val, Pow2;
    ValBound(p);
    if AllOnes(p) {
      ValOnes(p);
    }
    Distribute(Val(p), 1, Pow2(g - |p|));
    MulLe(Val(p) + 1, Pow2(|p|), Pow2(g - |p|));
    Pow2Add(|p|, g - |p|);
  }

  lemma AtLeast(n: nat, l: nat)
    requires l > 0 && n > 0 && n % l == 0
    ensures n >= l
  {
  }

  lemma NotHollow(p: seq<bool>, c: seq<nat>, g: nat, l: nat)
    requires NoGap(c, g, l) && p != [] && |p| % l == 0
    ensures !Hollow(p, c, g, l)
  {
    hide Place, Start, Pow2;
    AtLeast(|p|, l);
    if |p| <= g {
      PrefixEnd(p, g);
    }
  }

  lemma NoneWider(f: Forest, w: seq<nat>, c: seq<nat>, g: nat, l: nat, k: nat)
    requires FairWidths(f, w, c, g, l, k) && Rooms(f.pre, f.need, c, g, l) && NoGap(c, g, l)
    ensures w == f.need
  {
    hide Place, Start, Pow2, NoGap, Hollow, WideEnough, EndPlace;
    forall id | 0 <= id < |w| ensures w[id] == f.need[id] {
      assert FairWidth(f.pre[id], f.need[id], w[id], c, g, l, k) && Roomy(f.pre[id], f.need[id], c, g, l);
      if f.pre[id] != [] {
        NotHollow(f.pre[id], c, g, l);
      }
    }
  }

  /** Without a gap the tables are laid out as they should be. */
  lemma GapFree(t: Tables, f: Forest, w: seq<nat>, c: seq<nat>, g: nat, l: nat, k: nat)
    requires Real(t, f, w, c, g, l, k) && Framed(f, c, g, l) && NoGap(c, g, l)
    ensures t == f.t
  {
    hide Pow2, Low, Rooms, NoGap, FairWidths;
    NoneWider(f, w, c, g, l, k);
    forall id | 0 <= id < |t| ensures t[id] == f.t[id] {
      assert BuiltTable(t[id], f.t[id], w[id], w);
      forall e | 0 <= e < |t[id]| ensures t[id][e] == f.t[id][e] {
        assert LinkOk(f, l, id, e);
      }
    }
  }

  /** With or without a gap, no entry consumes more bits than index its table, and every link knows its table. */
  lemma RealNeat(t: Tables, f: Forest, w: seq<nat>, c: seq<nat>, g: nat, l: nat, k: nat)
    requires Real(t, f, w, c, g, l, k) && Framed(f, c, g, l)
    ensures Neat(t, l)
  {
    hide Pow2, Low, Rooms, Hollow;
    assert FairWidth(f.pre[0], f.need[0], w[0], c, g, l, k) && BuiltTable(t[0], f.t[0], w[0], w);
    forall id, e | 0 <= id < |t| && 0 <= e < |t[id]| ensures NeatEntry(t, id, e) {
      assert BuiltTable(t[id], f.t[id], w[id], w) && FairWidth(f.pre[id], f.need[id], w[id], c, g, l, k);
      if e < |f.t[id]| {
        assert LinkOk(f, l, id, e);
        var x := f.t[id][e];
        if !x.Blank? {
          Pow2Monotonic(x.bits, w[id]);
        }
        if x.Link? {
          assert BuiltTable(t[x.next], f.t[x.next], w[x.next], w);
        }
      }
    }
  }

  // With a gap the string of all ones gets stuck.

  lemma {:induction false} NumOnes(s: seq<bool>)
    requires AllOnes(s)
    ensures Num(s) == Pow2(|s|) - 1
  {
    if s != [] {
      NumOnes(s[1..]);
    }
  }

  /** All ones index the last entry of a table, and that of a too wide one is blank. */
  lemma LastBlank(t: Tables, id: nat, ideal: seq<Entry>, n: nat, w: seq<nat>, need: nat, s: seq<bool>, pos: nat)
    requires id < |t| && BuiltTable(t[id], ideal, n, w) && |ideal| == Pow2(need) && n > need && AllOnes(s)
    ensures Walk(t, id, n, s, pos) == Stuck
  {
    hide Num, Pow2;
    if pos + n <= |s| {
      NumOnes(s[pos..pos + n]);
      Pow2Monotonic(need + 1, n);
      Twice(need);
    }
  }

  lemma Twice(n: nat)
    ensures Pow2(n + 1) == 2 * Pow2(n) && Pow2(n) > 0
  {
  }

  lemma NextMultiple(a: nat, w: nat, l: nat)
    requires l > 0 && a % l == 0 && w % l == 0 && a < w
    ensures a + l <= w
  {
    var i, j := a / l, w / l;
    assert a == l * i && w == l * j;
    assert i < j;
    assert l * (i + 1) <= l * j;
  }

  /** Behind w ones all codes are more than l bits longer. */
  predicate Gap(c: seq<nat>, g: nat, l: nat, w: nat) {
    && 0 < l <= w && w + l < g < |c| && w % l == 0
    && Start(c, g, w + l + 1) + Pow2(g - w) <= Pow2(g)
  }

  lemma HasGap(c: seq<nat>, g: nat, l: nat) returns (w: nat)
    requires !NoGap(c, g, l) && l > 0 && g < |c|
    ensures Gap(c, g, l, w)
  {
    w :| l <= w && w + l < g && w % l == 0 && Pow2(g) >= Start(c, g, w + l + 1) + Pow2(g - w);
  }

  lemma GapHollow(c: seq<nat>, g: nat, l: nat, w: nat, p: seq<bool>)
    requires Gap(c, g, l, w) && |p| == w && AllOnes(p)
    ensures p != [] && Hollow(p, c, g, l)
  {
    hide Place, Start, Pow2;
    PrefixEnd(p, g);
  }

  /** A walk along ones either meets a table that is too wide or would have to end before the last bit of the code. */
  lemma {:induction false} OnesStuck(t: Tables, f: Forest, ws: seq<nat>, c: seq<nat>, g: nat, l: nat, k: nat,
                                     w: nat, id: nat, s: seq<bool>)
    requires Real(t, f, ws, c, g, l, k) && Framed(f, c, g, l) && Gap(c, g, l, w)
    requires id < |f.t| && AllOnes(s) && f.pre[id] <= s && |f.pre[id]| <= w
    requires WalkFrom(f, id, s) != Stuck && WalkFrom(f, id, s).used == g
    ensures Walk(t, id, ws[id], s, |f.pre[id]|) == Stuck
    decreases |f.t| - id
  {
    hide Num, Pow2, Low, Hollow, Gap, WideEnough, EndPlace;
    GapIs(c, g, l, w);
    var p := f.pre[id];
    assert FairWidth(p, f.need[id], ws[id], c, g, l, k) && BuiltTable(t[id], f.t[id], ws[id], ws);
    assert Roomy(p, f.need[id], c, g, l);
    if ws[id] != f.need[id] {
      LastBlank(t, id, f.t[id], ws[id], ws, f.need[id], s, |p|);
    } else if |p| == w {
      GapHollow(c, g, l, w, p);
      assert false;
    } else {
      NextMultiple(|p|, w, l);
      var e := Num(s[|p|..|p| + f.need[id]]);
      assert LinkOk(f, l, id, e);
      NeedAtMost(p, f.need[id], c, g, l);
      var x := f.t[id][e];
      assert x.Link?;
      NumInjective(Low(e, l), s[|p|..|p| + l]);
      assert f.pre[x.next] == s[..|p|] + s[|p|..|p| + l] == s[..|p| + l];
      OnesStuck(t, f, ws, c, g, l, k, w, x.next, s);
    }
  }

  lemma NeedAtMost(p: seq<bool>, need: nat, c: seq<nat>, g: nat, l: nat)
    requires l > 0 && Roomy(p, need, c, g, l)
    ensures need <= l
  {
  }

  lemma GapIs(c: seq<nat>, g: nat, l: nat, w: nat)
    requires Gap(c, g, l, w)
    ensures 0 < l <= w && w + l < g && w % l == 0
  {
  }

  /** The last place belongs to the last code of the longest length. */
  lemma LastHolds(c: seq<nat>, g: nat)
    requires Layout(c, g)
    ensures Holds(c, g, Pow2(g) - 1, g, c[g] - 1)
  {
    assert Pow2(0) == 1;
    hide Pow2, Start;
    StartNext(c, g, g);
  }

  lemma LastUsed(t: Tables, c: seq<nat>, v: seq<nat>, g: nat, l: nat, s: seq<bool>)
    requires Layout(c, g) && Done(t, c, v, g, l, Pow2(g)) && |s| == g && AllOnes(s)
    ensures Walk(t, 0, l, s, 0) != Stuck && Walk(t, 0, l, s, 0).used == g
  {
    hide Walk, Val, Pow2, Holds, Start, Off;
    ValOnes(s);
    LastHolds(c, g);
    assert Decodes(t, c, v, g, l, s);
  }

  /** With a gap the tables are deaf to the string of all ones. */
  lemma GapDeaf(t: Tables, f: Forest, ws: seq<nat>, c: seq<nat>, v: seq<nat>, g: nat, l: nat)
    requires Layout(c, g) && Done(f.t, c, v, g, l, Pow2(g)) && Framed(f, c, g, l) && Real(t, f, ws, c, g, l, g)
    requires !NoGap(c, g, l)
    ensures Deaf(t, l, g)
  {
    FirstWidth(t, f, ws, c, g, l, g);
    hide Walk, Done, Shape, Rooms, Real, Pow2, NoGap, Layout, Gap;
    var w := HasGap(c, g, l);
    forall s: seq<bool> | |s| >= g && AllOnes(s) ensures Walk(t, 0, l, s, 0) == Stuck {
      LastUsed(f.t, c, v, g, l, s[..g]);
      WalkExtends(f.t, 0, l, s[..g], 0, s[g..]);
      assert s[..g] + s[g..] == s;
      OnesStuck(t, f, ws, c, g, l, g, w, 0, s);
    }
  }

  lemma FirstWidth(t: Tables, f: Forest, ws: seq<nat>, c: seq<nat>, g: nat, l: nat, k: nat)
    requires Framed(f, c, g, l) && Real(t, f, ws, c, g, l, k)
    ensures l > 0 && g < |c| && |ws| == |f.t| && ws[0] == l
  {
    hide Pow2, Hollow;
    assert FairWidth(f.pre[0], f.need[0], ws[0], c, g, l, k);
  }
}
