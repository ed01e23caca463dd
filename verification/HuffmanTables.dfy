/**
 * Multi-level decoding tables: walking them bit by bit, and what adding a table or
 * filling in a code does to the walks that already succeed.
 */
module HuffmanTables {
  import opened Arith
  import opened Bits
  import opened BitOrder
  import opened HuffmanCodes

  /** bits are consumed by the entry; a link also says how many bits index the next table. */
  datatype Entry =
    | Blank
    | Leaf(bits: nat, symbol: nat)
    | Invalid(bits: nat)
    | Link(bits: nat, need: nat, next: nat)

  type Tables = seq<seq<Entry>>

  datatype Result = Symbol(symbol: nat, used: nat) | BadCode(used: nat) | Stuck

  /** The walk inflate_codes does from table id, need bits at a time, from position pos of the stream. */
  function Walk(t: Tables, id: nat, need: nat, s: seq<bool>, pos: nat): Result
    decreases |t| - id
  {
    if id >= |t| || pos + need > |s| then Stuck
    else
      var e := Num(s[pos..pos + need]);
      if e >= |t[id]| then Stuck
      else
        match t[id][e]
        case Blank => Stuck
        case Leaf(b, n) => Symbol(n, pos + b)
        case Invalid(b) => BadCode(pos + b)
        case Link(b, nd, nx) => if nx <= id then Stuck else Walk(t, nx, nd, s, pos + b)
  }

  /** A walk that ends does not depend on what follows the bits it saw. */
  lemma {:induction false} WalkExtends(t: Tables, id: nat, need: nat, s: seq<bool>, pos: nat, rest: seq<bool>)
    requires Walk(t, id, need, s, pos) != Stuck
    ensures Walk(t, id, need, s + rest, pos) == Walk(t, id, need, s, pos)
    decreases |t| - id
  {
    assert (s + rest)[pos..pos + need] == s[pos..pos + need];
    var entry := t[id][Num(s[pos..pos + need])];
    if entry.Link? {
      WalkExtends(t, entry.next, entry.need, s, pos + entry.bits, rest);
    }
  }

  /** The tables with the bits that lead to each of them and the bits that index it. */
  datatype Forest = Forest(t: Tables, pre: seq<seq<bool>>, need: seq<nat>)

  predicate LinkOk(f: Forest, l: nat, id: nat, e: nat)
    requires |f.pre| == |f.need| == |f.t| && id < |f.t| && e < |f.t[id]|
  {
    var x := f.t[id][e];
    && (x.Leaf? || x.Invalid? ==> x.bits <= f.need[id])
    && (x.Link? ==>
      && x.bits == l == f.need[id] && id < x.next < |f.t| && x.need == f.need[x.next]
      && e < Pow2(l) && f.pre[x.next] == f.pre[id] + Low(e, l))
  }

  /** Every link leads on by l bits, to a later table. */
  predicate Shape(f: Forest, l: nat) {
    && |f.pre| == |f.need| == |f.t|
    && (forall id :: 0 <= id < |f.t| ==> |f.t[id]| == Pow2(f.need[id]))
    && (forall id, e :: 0 <= id < |f.t| && 0 <= e < |f.t[id]| ==> LinkOk(f, l, id, e))
  }

  function WalkFrom(f: Forest, id: nat, s: seq<bool>): Result
    requires |f.pre| == |f.need| == |f.t| && id < |f.t|
  {
    Walk(f.t, id, f.need[id], s, |f.pre[id]|)
  }

  /** t2 is t except for the entries E of table x, and perhaps more tables. */
  predicate Agree(t: Tables, t2: Tables, x: nat, E: iset<nat>) {
    && |t| <= |t2|
    && (forall id :: 0 <= id < |t| ==> |t2[id]| == |t[id]|)
    && (forall id, e :: 0 <= id < |t| && 0 <= e < |t[id]| ==> (id == x && e in E) || SameEntry(t, t2, id, e))
  }

  predicate SameEntry(t: Tables, t2: Tables, id: nat, e: nat) {
    id < |t| && id < |t2| && e < |t[id]| && e < |t2[id]| && t2[id][e] == t[id][e]
  }

  /** The walk of s goes through one of the entries E of table x. */
  predicate Touches(f: Forest, x: nat, E: iset<nat>, s: seq<bool>)
    requires |f.pre| == |f.need| == |f.t| && x < |f.t|
  {
    && f.pre[x] <= s && |f.pre[x]| + f.need[x] <= |s|
    && Num(s[|f.pre[x]|..|f.pre[x]| + f.need[x]]) in E
  }

  /** A walk that avoids the entries that changed ends as before. */
  lemma {:induction false} Untouched(f: Forest, l: nat, t2: Tables, x: nat, E: iset<nat>, id: nat, s: seq<bool>)
    requires Shape(f, l) && x < |f.t| && Agree(f.t, t2, x, E)
    requires id < |f.t| && f.pre[id] <= s && !Touches(f, x, E, s)
    requires WalkFrom(f, id, s) != Stuck
    ensures Walk(t2, id, f.need[id], s, |f.pre[id]|) == WalkFrom(f, id, s)
    decreases |f.t| - id
  {
    hide Num, Pow2, Low;
    var pos := |f.pre[id]|;
    var e := Num(s[pos..pos + f.need[id]]);
    assert pos + f.need[id] <= |s| && e < |f.t[id]|;
    assert id == x ==> e !in E;
    assert SameEntry(f.t, t2, id, e);
    assert LinkOk(f, l, id, e);
    var entry := f.t[id][e];
    if entry.Link? {
      NumBound(s[pos..pos + l]);
      NumInjective(Low(e, l), s[pos..pos + l]);
      assert f.pre[entry.next] == s[..pos] + s[pos..pos + l] == s[..pos + l];
      Untouched(f, l, t2, x, E, entry.next, s);
    }
  }

  /** No entry consumes more bits than index its table, and links know the size of the table they lead to. */
  predicate Neat(t: Tables, need: nat) {
    && t != [] && |t[0]| == Pow2(need)
    && forall id, e :: 0 <= id < |t| && 0 <= e < |t[id]| ==> NeatEntry(t, id, e)
  }

  predicate NeatEntry(t: Tables, id: nat, e: nat)
    requires id < |t| && e < |t[id]|
  {
    var x := t[id][e];
    && (!x.Blank? ==> Pow2(x.bits) <= |t[id]|)
    && (x.Link? ==> x.next < |t| && |t[x.next]| == Pow2(x.need))
  }

  // The tables on the way to the current code.

  /** u holds the tables along code, from the first one. */
  predicate Stack(f: Forest, l: nat, u: seq<nat>, code: seq<bool>)
    requires |f.pre| == |f.need| == |f.t|
  {
    && (|f.t| > 0 ==> f.pre[0] == [] && f.need[0] == l)
    && (u != [] ==> u[0] == 0)
    && (forall i :: 0 <= i < |u| ==> u[i] < |f.t| && f.pre[u[i]] <= code)
    && (forall i :: 0 < i < |u| ==> Linked(f, l, u[i - 1], u[i]))
  }

  predicate Linked(f: Forest, l: nat, a: nat, b: nat)
    requires |f.pre| == |f.need| == |f.t|
  {
    && a < |f.t| && b < |f.t|
    && |f.pre[b]| == |f.pre[a]| + l
    && f.need[a] == l
    && var e := Num(f.pre[b][|f.pre[a]|..]); e < |f.t[a]| && f.t[a][e] == Link(l, f.need[b], b)
  }

  /** Walks along code from the first table reach the last table of the stack. */
  lemma {:induction false} Descend(f: Forest, l: nat, u: seq<nat>, code: seq<bool>, s: seq<bool>, i: nat)
    requires Shape(f, l) && Stack(f, l, u, code) && i < |u|
    requires f.pre[u[i]] <= s
    ensures Walk(f.t, 0, l, s, 0) == WalkFrom(f, u[i], s)
    decreases i
  {
    hide Num, Pow2, Low;
    if i > 0 {
      var a, b := u[i - 1], u[i];
      assert Linked(f, l, a, b);
      var pa, pb := f.pre[a], f.pre[b];
      assert pa <= code && pb <= code;
      assert pa == pb[..|pa|] == s[..|pa|];
      assert s[|pa|..|pa| + l] == pb[|pa|..];
      Descend(f, l, u, code, s, i - 1);
      assert LinkOk(f, l, a, Num(pb[|pa|..]));
    }
  }

  // What the tables should say: the codes laid out on 2^g places.

  predicate Layout(c: seq<nat>, g: nat) {
    && 1 <= g < |c|
    && Start(c, g, g + 1) == Pow2(g)
    && c[g] > 0
  }

  /** Place p belongs to the r-th code of k bits. */
  predicate Holds(c: seq<nat>, g: nat, p: nat, k: nat, r: nat) {
    && 1 <= k <= g < |c| && r < c[k]
    && var u := Pow2(g - k); Start(c, g, k) + r * u <= p < Start(c, g, k) + (r + 1) * u
  }

  /** v lists the symbols in the order of their codes; codes beyond them mean nothing. */
  function Meaning(c: seq<nat>, v: seq<nat>, k: nat, r: nat): Result
    requires k <= |c|
  {
    if Off(c, k) + r < |v| then Symbol(v[Off(c, k) + r], k) else BadCode(k)
  }

  ghost predicate Decodes(t: Tables, c: seq<nat>, v: seq<nat>, g: nat, l: nat, s: seq<bool>) {
    forall k, r :: Holds(c, g, Val(s), k, r) ==> Walk(t, 0, l, s, 0) == Meaning(c, v, k, r)
  }

  /** Every bit string that starts before place p is decoded. */
  ghost predicate Done(t: Tables, c: seq<nat>, v: seq<nat>, g: nat, l: nat, p: nat) {
    forall s: seq<bool> :: |s| == g && Val(s) < p ==> Walk(t, 0, l, s, 0) != Stuck && Decodes(t, c, v, g, l, s)
  }

  /** The places of different codes are disjoint. */
  lemma OneCode(c: seq<nat>, g: nat, p: nat, k: nat, r: nat, k2: nat, r2: nat)
    requires Holds(c, g, p, k, r) && Holds(c, g, p, k2, r2)
    ensures k == k2 && r == r2
  {
    if k < k2 {
      LastPlace(c, g, k, r);
      StartMonotonic(c, g, k + 1, k2);
    } else if k2 < k {
      LastPlace(c, g, k2, r2);
      StartMonotonic(c, g, k2 + 1, k);
    } else {
      SameLength(Start(c, g, k), Pow2(g - k), p, r, r2);
    }
  }

  lemma LastPlace(c: seq<nat>, g: nat, k: nat, r: nat)
    requires 1 <= k <= g < |c| && r < c[k]
    ensures Start(c, g, k) + (r + 1) * Pow2(g - k) <= Start(c, g, k + 1)
  {
  }

  lemma SameLength(a: nat, u: nat, p: nat, r: nat, r2: nat)
    requires a + r * u <= p < a + (r + 1) * u && a + r2 * u <= p < a + (r2 + 1) * u
    ensures r == r2
  {
  }

  // Filling in a code.

  /** The table q with r at every index that starts with the bits of first. */
  function Fill(q: seq<Entry>, first: nat, stride: nat, r: Entry): (t: seq<Entry>)
    requires stride > 0
    ensures |t| == |q|
  {
    seq(|q|, e requires 0 <= e < |q| => if e % stride == first then r else q[e])
  }

  function FillTop(f: Forest, x: nat, first: nat, stride: nat, r: Entry): Forest
    requires x < |f.t| && stride > 0
  {
    f.(t := f.t[x := Fill(f.t[x], first, stride, r)])
  }

  lemma FillShape(f: Forest, l: nat, x: nat, first: nat, stride: nat, r: Entry)
    requires Shape(f, l) && x < |f.t| && stride > 0 && (r.Leaf? || r.Invalid?) && r.bits <= f.need[x]
    ensures Shape(FillTop(f, x, first, stride, r), l)
  {
    var f2 := FillTop(f, x, first, stride, r);
    forall id, e | 0 <= id < |f2.t| && 0 <= e < |f2.t[id]| ensures LinkOk(f2, l, id, e) {
      assert LinkOk(f, l, id, e);
    }
  }

  lemma FillAgrees(t: Tables, x: nat, first: nat, stride: nat, r: Entry)
    requires x < |t| && stride > 0
    ensures Agree(t, t[x := Fill(t[x], first, stride, r)], x, iset e: nat | e % stride == first)
  {
  }

  lemma {:induction false} StackAscends(f: Forest, l: nat, u: seq<nat>, code: seq<bool>, i: nat, j: nat)
    requires Shape(f, l) && Stack(f, l, u, code) && i < j < |u|
    ensures u[i] < u[j]
    decreases j
  {
    var a, b := u[j - 1], u[j];
    assert Linked(f, l, a, b);
    assert LinkOk(f, l, a, Num(f.pre[b][|f.pre[a]|..]));
    if i < j - 1 {
      StackAscends(f, l, u, code, i, j - 1);
    }
  }

  lemma FillStack(f: Forest, l: nat, u: seq<nat>, code: seq<bool>, first: nat, stride: nat, r: Entry)
    requires Shape(f, l) && Stack(f, l, u, code) && u != [] && stride > 0
    ensures Stack(FillTop(f, u[|u| - 1], first, stride, r), l, u, code)
  {
    var x := u[|u| - 1];
    var f2 := FillTop(f, x, first, stride, r);
    forall i | 0 < i < |u| ensures Linked(f2, l, u[i - 1], u[i]) {
      assert Linked(f, l, u[i - 1], u[i]);
      StackAscends(f, l, u, code, i - 1, |u| - 1);
    }
  }

  /** A string that meets one of the entries filled in starts with the code. */
  lemma FillTouches(pre: seq<bool>, need: nat, code: seq<bool>, s: seq<bool>)
    requires pre <= code && pre <= s && |code| <= |pre| + need <= |s|
    ensures Num(s[|pre|..|pre| + need]) % Pow2(|code| - |pre|) == Num(code[|pre|..]) <==> code <= s
  {
    hide Num, Pow2;
    var w, k := |pre|, |code|;
    IndexLow(s, w, need, k - w);
    SameNum(s[w..k], code[w..]);
    PrefixIff(pre, code, s);
  }

  lemma IndexLow(s: seq<bool>, w: nat, n: nat, m: nat)
    requires w + n <= |s| && m <= n
    ensures Num(s[w..w + n]) % Pow2(m) == Num(s[w..w + m])
  {
    hide Num, Pow2;
    assert s[w..w + n][..m] == s[w..w + m];
    NumSplit(s[w..w + n], m);
  }

  lemma SameNum(a: seq<bool>, b: seq<bool>)
    requires |a| == |b|
    ensures Num(a) == Num(b) <==> a == b
  {
  }

  lemma PrefixIff(pre: seq<bool>, code: seq<bool>, s: seq<bool>)
    requires pre <= code && pre <= s && |code| <= |s|
    ensures s[|pre|..|code|] == code[|pre|..] <==> code <= s
  {
  }

  predicate Top(f: Forest, u: seq<nat>, x: nat) {
    u != [] && x == u[|u| - 1] < |f.t| == |f.pre| == |f.need|
  }

  lemma TopIs(f: Forest, l: nat, u: seq<nat>, code: seq<bool>)
    requires Shape(f, l) && Stack(f, l, u, code) && u != []
    ensures var x := u[|u| - 1]; Top(f, u, x) && f.pre[x] <= code && |f.t[x]| == Pow2(f.need[x])
  {
  }

  /** A string that starts with the code now ends its walk at the new entry. */
  lemma FillHits(f: Forest, l: nat, u: seq<nat>, code: seq<bool>, x: nat, r: Entry, s: seq<bool>)
    requires Shape(f, l) && Stack(f, l, u, code) && Top(f, u, x) && (r.Leaf? || r.Invalid?)
    requires |f.pre[x]| < |code| <= |f.pre[x]| + f.need[x] <= |s| && r.bits == |code| - |f.pre[x]| && code <= s
    ensures var f2 := FillTop(f, x, Num(code[|f.pre[x]|..]), Pow2(|code| - |f.pre[x]|), r);
      Walk(f2.t, 0, l, s, 0) == if r.Leaf? then Symbol(r.symbol, |code|) else BadCode(|code|)
  {
    hide Num, Pow2, Fill, Walk, Low, Shape, Stack;
    TopIs(f, l, u, code);
    var pre, need := f.pre[x], f.need[x];
    var first, stride := Num(code[|pre|..]), Pow2(|code| - |pre|);
    FillShape(f, l, x, first, stride, r);
    FillStack(f, l, u, code, first, stride, r);
    Descend(FillTop(f, x, first, stride, r), l, u, code, s, |u| - 1);
    FillEnds(f.t, x, pre, need, code, s, r);
  }

  lemma FillEnds(t: Tables, x: nat, pre: seq<bool>, need: nat, code: seq<bool>, s: seq<bool>, r: Entry)
    requires x < |t| && |t[x]| == Pow2(need) && pre <= code <= s && |code| <= |pre| + need <= |s|
    requires (r.Leaf? || r.Invalid?) && r.bits == |code| - |pre|
    ensures Walk(t[x := Fill(t[x], Num(code[|pre|..]), Pow2(|code| - |pre|), r)], x, need, s, |pre|)
         == if r.Leaf? then Symbol(r.symbol, |code|) else BadCode(|code|)
  {
    hide Num, Pow2, Fill, Walk;
    FillsEntry(t[x], pre, need, code, s, r);
    var q := Fill(t[x], Num(code[|pre|..]), Pow2(|code| - |pre|), r);
    WalkEnds(t[x := q], x, need, s, |pre|, r);
  }

  lemma FillsEntry(q: seq<Entry>, pre: seq<bool>, need: nat, code: seq<bool>, s: seq<bool>, r: Entry)
    requires |q| == Pow2(need) && pre <= code && pre <= s && |code| <= |pre| + need <= |s|
    ensures var e := Num(s[|pre|..|pre| + need]);
      e < |q| && Fill(q, Num(code[|pre|..]), Pow2(|code| - |pre|), r)[e] == if code <= s then r else q[e]
  {
    hide Num, Pow2;
    var index := s[|pre|..|pre| + need];
    FillTouches(pre, need, code, s);
    NumBound(index);
    FillAt(q, Num(code[|pre|..]), Pow2(|code| - |pre|), r, Num(index));
  }

  lemma WalkEnds(t: Tables, id: nat, need: nat, s: seq<bool>, pos: nat, r: Entry)
    requires id < |t| && pos + need <= |s| && Num(s[pos..pos + need]) < |t[id]|
    requires t[id][Num(s[pos..pos + need])] == r && (r.Leaf? || r.Invalid?)
    ensures Walk(t, id, need, s, pos) == if r.Leaf? then Symbol(r.symbol, pos + r.bits) else BadCode(pos + r.bits)
  {
  }

  lemma FillAt(q: seq<Entry>, first: nat, stride: nat, r: Entry, e: nat)
    requires stride > 0 && e < |q|
    ensures Fill(q, first, stride, r)[e] == if e % stride == first then r else q[e]
  {
  }

  /** The place of the first string that starts with code. */
  function Place(code: seq<bool>, g: nat): nat
    requires |code| <= g
  {
    Val(code) * Pow2(g - |code|)
  }

  /** The entry of the r-th code of k bits in a table behind w bits. */
  function EntryFor(c: seq<nat>, v: seq<nat>, k: nat, r: nat, w: nat): (e: Entry)
    requires w < k <= |c|
  {
    if Off(c, k) + r < |v| then Leaf(k - w, v[Off(c, k) + r]) else Invalid(k - w)
  }

  /** The code is the r-th of its length. */
  predicate CodeAt(c: seq<nat>, g: nat, code: seq<bool>, r: nat) {
    && 1 <= |code| <= g < |c| && r < c[|code|]
    && Place(code, g) == Start(c, g, |code|) + r * Pow2(g - |code|)
  }

  lemma CodeHolds(c: seq<nat>, g: nat, code: seq<bool>, r: nat, s: seq<bool>)
    requires CodeAt(c, g, code, r) && |s| == g
    ensures code <= s <==> Holds(c, g, Val(s), |code|, r)
    ensures code <= s <==> Place(code, g) <= Val(s) < Place(code, g) + Pow2(g - |code|)
  {
    hide Val, Pow2, Start;
    Places(code, s);
    Distribute(Val(code), 1, Pow2(g - |code|));
    Distribute(r, 1, Pow2(g - |code|));
  }

  /** Strings that start with the code are decoded once it is filled in. */
  lemma FillDecodes(f: Forest, l: nat, u: seq<nat>, code: seq<bool>, x: nat,
                    c: seq<nat>, v: seq<nat>, g: nat, r: nat, s: seq<bool>)
    requires Shape(f, l) && Stack(f, l, u, code) && Top(f, u, x) && CodeAt(c, g, code, r)
    requires |f.pre[x]| < |code| <= |f.pre[x]| + f.need[x] <= g == |s| && code <= s
    ensures var w := |f.pre[x]|;
      var f2 := FillTop(f, x, Num(code[w..]), Pow2(|code| - w), EntryFor(c, v, |code|, r, w));
      Walk(f2.t, 0, l, s, 0) != Stuck && Decodes(f2.t, c, v, g, l, s)
  {
    hide Num, Pow2, Fill, Walk, Shape, Stack, Val, Start, Off, Holds;
    var w, k := |f.pre[x]|, |code|;
    FillHits(f, l, u, code, x, EntryFor(c, v, k, r, w), s);
    CodeHolds(c, g, code, r, s);
    forall k2, r2 | Holds(c, g, Val(s), k2, r2) ensures k2 == k && r2 == r {
      OneCode(c, g, Val(s), k, r, k2, r2);
    }
  }

  /** Strings that do not start with the code are decoded as before. */
  lemma FillSpares(f: Forest, l: nat, code: seq<bool>, x: nat, r: Entry, s: seq<bool>)
    requires Shape(f, l) && x < |f.t| && f.pre[0] == [] && f.need[0] == l
    requires f.pre[x] <= code && |code| <= |f.pre[x]| + f.need[x] <= |s| && !(code <= s)
    requires Walk(f.t, 0, l, s, 0) != Stuck
    ensures var f2 := FillTop(f, x, Num(code[|f.pre[x]|..]), Pow2(|code| - |f.pre[x]|), r);
      Walk(f2.t, 0, l, s, 0) == Walk(f.t, 0, l, s, 0)
  {
    hide Num, Pow2, Fill, Walk, Agree;
    var pre, need := f.pre[x], f.need[x];
    var first, stride := Num(code[|pre|..]), Pow2(|code| - |pre|);
    var E := iset e: nat | e % stride == first;
    FillAgrees(f.t, x, first, stride, r);
    if pre <= s {
      FillTouches(pre, need, code, s);
    }
    Untouched(f, l, FillTop(f, x, first, stride, r).t, x, E, 0, s);
  }

  /** Filling in the code at place p moves the frontier behind it. */
  lemma FillDone(f: Forest, l: nat, u: seq<nat>, code: seq<bool>, x: nat,
                 c: seq<nat>, v: seq<nat>, g: nat, r: nat)
    requires Shape(f, l) && Stack(f, l, u, code) && Top(f, u, x) && CodeAt(c, g, code, r)
    requires |f.pre[x]| < |code| <= |f.pre[x]| + f.need[x] <= g
    requires Done(f.t, c, v, g, l, Place(code, g))
    ensures var w := |f.pre[x]|;
      var f2 := FillTop(f, x, Num(code[w..]), Pow2(|code| - w), EntryFor(c, v, |code|, r, w));
      Shape(f2, l) && Stack(f2, l, u, code) && Done(f2.t, c, v, g, l, Place(code, g) + Pow2(g - |code|))
  {
    var w := |f.pre[x]|;
    var entry := EntryFor(c, v, |code|, r, w);
    FillShape(f, l, x, Num(code[w..]), Pow2(|code| - w), entry);
    FillStack(f, l, u, code, Num(code[w..]), Pow2(|code| - w), entry);
    TopIs(f, l, u, code);
    assert f.pre[0] == [] && f.need[0] == l;
    hide Num, Pow2, Fill, Walk, Shape, Stack, Val, Start, Off, Decodes, CodeAt, Place, EntryFor;
    var f2 := FillTop(f, x, Num(code[w..]), Pow2(|code| - w), entry);
    forall s: seq<bool> | |s| == g && Val(s) < Place(code, g) + Pow2(g - |code|)
      ensures Walk(f2.t, 0, l, s, 0) != Stuck && Decodes(f2.t, c, v, g, l, s)
    {
      CodeHolds(c, g, code, r, s);
      if code <= s {
        FillDecodes(f, l, u, code, x, c, v, g, r, s);
      } else {
        FillSpares(f, l, code, x, entry, s);
        SameDecodes(f.t, f2.t, c, v, g, l, s);
      }
    }
  }

  lemma SameDecodes(t: Tables, t2: Tables, c: seq<nat>, v: seq<nat>, g: nat, l: nat, s: seq<bool>)
    requires Decodes(t, c, v, g, l, s) && Walk(t2, 0, l, s, 0) == Walk(t, 0, l, s, 0)
    ensures Decodes(t2, c, v, g, l, s)
  {
  }

  // Adding a table.

  function Blanks(n: nat): (q: seq<Entry>)
    ensures |q| == n && forall i :: 0 <= i < n ==> q[i] == Blank
  {
    seq(n, _ => Blank)
  }

  /** A table of j bits behind l more bits of code, linked from table x. */
  function Grow(f: Forest, l: nat, x: nat, code: seq<bool>, j: nat): Forest
    requires x < |f.t| == |f.pre| && |f.pre[x]| + l <= |code| && Num(code[|f.pre[x]|..|f.pre[x]| + l]) < |f.t[x]|
  {
    var w := |f.pre[x]|;
    Forest(f.t[x := f.t[x][Num(code[w..w + l]) := Link(l, j, |f.t|)]] + [Blanks(Pow2(j))],
           f.pre + [code[..w + l]],
           f.need + [j])
  }

  predicate Growable(f: Forest, l: nat, u: seq<nat>, code: seq<bool>, x: nat) {
    && Shape(f, l) && Stack(f, l, u, code) && Top(f, u, x)
    && f.need[x] == l && |f.pre[x]| + l <= |code|
    && Num(code[|f.pre[x]|..|f.pre[x]| + l]) < |f.t[x]|
  }

  lemma GrowShape(f: Forest, l: nat, u: seq<nat>, code: seq<bool>, x: nat, j: nat)
    requires Growable(f, l, u, code, x)
    ensures Shape(Grow(f, l, x, code, j), l)
  {
    hide Num, Pow2, Low;
    var w := |f.pre[x]|;
    var at := Num(code[w..w + l]);
    NumBound(code[w..w + l]);
    NumInjective(Low(at, l), code[w..w + l]);
    assert code[..w + l] == f.pre[x] + code[w..w + l];
    var f2 := Grow(f, l, x, code, j);
    forall id, e | 0 <= id < |f2.t| && 0 <= e < |f2.t[id]| ensures LinkOk(f2, l, id, e) {
      if id < |f.t| {
        assert LinkOk(f, l, id, e);
      }
    }
  }

  lemma GrowStack(f: Forest, l: nat, u: seq<nat>, code: seq<bool>, x: nat, j: nat)
    requires Growable(f, l, u, code, x)
    ensures Stack(Grow(f, l, x, code, j), l, u + [|f.t|], code)
  {
    hide Num, Pow2, Low;
    var f2, u2 := Grow(f, l, x, code, j), u + [|f.t|];
    var w := |f.pre[x]|;
    assert code[..w + l][w..] == code[w..w + l];
    forall i | 0 < i < |u2| ensures Linked(f2, l, u2[i - 1], u2[i]) {
      if i < |u| {
        assert Linked(f, l, u[i - 1], u[i]);
        StackAscends(f, l, u, code, i - 1, |u| - 1);
      }
    }
  }

  /** A string whose walk goes through the new link starts no earlier than code. */
  lemma GrowTouches(f: Forest, l: nat, u: seq<nat>, code: seq<bool>, x: nat, g: nat, s: seq<bool>)
    requires Growable(f, l, u, code, x) && |code| <= g == |s|
    requires forall i :: |f.pre[x]| + l <= i < |code| ==> !code[i]
    requires Touches(f, x, iset{Num(code[|f.pre[x]|..|f.pre[x]| + l])}, s)
    ensures Place(code, g) <= Val(s)
  {
    hide Num, Pow2, Val;
    var w := |f.pre[x]|;
    NumInjective(s[w..w + l], code[w..w + l]);
    var head := code[..w + l];
    assert s[..w + l] == f.pre[x] + s[w..w + l] == head;
    Places(head, s);
    assert code == head + Zeros(|code| - (w + l));
    PlacePadded(head, |code| - (w + l), g);
  }

  lemma PlacePadded(head: seq<bool>, n: nat, g: nat)
    requires |head| + n <= g
    ensures Place(head + Zeros(n), g) == Place(head, g)
  {
    hide Val, Pow2;
    ValPadded(head, n);
    Pow2Add(n, g - |head| - n);
    Associate(Val(head), Pow2(n), Pow2(g - |head| - n));
  }

  lemma GrowDone(f: Forest, l: nat, u: seq<nat>, code: seq<bool>, x: nat, j: nat, c: seq<nat>, v: seq<nat>, g: nat)
    requires Growable(f, l, u, code, x) && |code| <= g
    requires forall i :: |f.pre[x]| + l <= i < |code| ==> !code[i]
    requires Done(f.t, c, v, g, l, Place(code, g))
    ensures Done(Grow(f, l, x, code, j).t, c, v, g, l, Place(code, g))
  {
    var f2 := Grow(f, l, x, code, j);
    var E := iset{Num(code[|f.pre[x]|..|f.pre[x]| + l])};
    assert Agree(f.t, f2.t, x, E);
    assert f.pre[0] == [] && f.need[0] == l;
    hide Num, Pow2, Walk, Shape, Stack, Val, Decodes, Place, Touches, Grow, Agree;
    forall s: seq<bool> | |s| == g && Val(s) < Place(code, g)
      ensures Walk(f2.t, 0, l, s, 0) != Stuck && Decodes(f2.t, c, v, g, l, s)
    {
      if Touches(f, x, E, s) {
        GrowTouches(f, l, u, code, x, g, s);
      }
      Untouched(f, l, f2.t, x, E, 0, s);
      SameDecodes(f.t, f2.t, c, v, g, l, s);
    }
  }
}
