/**
 * The tables as huft_build lays them out. A table whose first code is more than l bits longer
 * than the bits before it is made as wide as that code, though the link to it consumes l bits.
 */
module HuftWidths {
  import opened Bits
  import opened BitOrder
  import opened HuffmanCodes
  import opened HuffmanTables

  /** The entry as laid out: a link says how wide the table it leads to really is. */
  function AsBuilt(x: Entry, w: seq<nat>): Entry {
    if x.Link? && x.next < |w| then x.(need := w[x.next]) else x
  }

  predicate BuiltTable(q: seq<Entry>, ideal: seq<Entry>, n: nat, w: seq<nat>) {
    && |ideal| <= |q| == Pow2(n)
    && (forall e :: 0 <= e < |ideal| ==> q[e] == AsBuilt(ideal[e], w))
    && (forall e :: |ideal| <= e < |q| ==> q[e] == Blank)
  }

  /** t has the tables of f, each perhaps wider than it needs to be and blank beyond. */
  predicate Built(t: Tables, f: Forest, w: seq<nat>) {
    && |t| == |f.t| == |w|
    && forall id :: 0 <= id < |t| ==> BuiltTable(t[id], f.t[id], w[id], w)
  }

  /** All codes behind p, if there are any, are more than l bits longer than p. */
  predicate Hollow(p: seq<bool>, c: seq<nat>, g: nat, l: nat) {
    |p| + l < g < |c| && Start(c, g, |p| + l + 1) <= Place(p, g)
  }

  /**
   * A table behind p is wider than it needs to be exactly if all codes behind p are more than l
   * bits longer; the codes still to come, of k bits and more, then are too. The first table
   * never is.
   */
  predicate FairWidth(p: seq<bool>, need: nat, n: nat, c: seq<nat>, g: nat, l: nat, k: nat) {
    && |p| <= g < |c|
    && (n != need ==> n > need == l && |p| + l < k)
    && (n != need <==> p != [] && Hollow(p, c, g, l))
  }

  predicate FairWidths(f: Forest, w: seq<nat>, c: seq<nat>, g: nat, l: nat, k: nat) {
    && |f.pre| == |f.need| == |w|
    && forall id :: 0 <= id < |w| ==> FairWidth(f.pre[id], f.need[id], w[id], c, g, l, k)
  }

  predicate Real(t: Tables, f: Forest, w: seq<nat>, c: seq<nat>, g: nat, l: nat, k: nat) {
    Built(t, f, w) && FairWidths(f, w, c, g, l, k)
  }

  lemma MoreWidths(q: seq<Entry>, ideal: seq<Entry>, n: nat, w: seq<nat>, j: nat)
    requires BuiltTable(q, ideal, n, w) && forall e :: 0 <= e < |ideal| && ideal[e].Link? ==> ideal[e].next < |w|
    ensures BuiltTable(q, ideal, n, w + [j])
  {
    hide Pow2;
  }

  lemma LinksInside(f: Forest, l: nat, id: nat)
    requires Shape(f, l) && id < |f.t|
    ensures forall e :: 0 <= e < |f.t[id]| && f.t[id][e].Link? ==> f.t[id][e].next < |f.t|
  {
    hide Pow2, Low;
    forall e | 0 <= e < |f.t[id]| && f.t[id][e].Link? ensures f.t[id][e].next < |f.t| {
      assert LinkOk(f, l, id, e);
    }
  }

  lemma LinkBuilt(q: seq<Entry>, ideal: seq<Entry>, m: nat, w: seq<nat>, e: nat, l: nat, n: nat, j: nat)
    requires BuiltTable(q, ideal, m, w + [j]) && e < |ideal|
    ensures e < |q| && BuiltTable(q[e := Link(l, j, |w|)], ideal[e := Link(l, n, |w|)], m, w + [j])
  {
    hide Pow2;
  }

  lemma BlanksBuilt(n: nat, j: nat, w: seq<nat>)
    requires n <= j
    ensures BuiltTable(Blanks(Pow2(j)), Blanks(Pow2(n)), j, w)
  {
    hide Pow2;
    Pow2Monotonic(n, j);
  }

  /** A table that is laid out with j bits where n are needed, linked from entry e of table x. */
  lemma BuiltMore(t: Tables, f: Forest, l: nat, w: seq<nat>, x: nat, e: nat, p: seq<bool>, n: nat, j: nat)
    requires Built(t, f, w) && Shape(f, l) && x < |f.t| && e < |f.t[x]| && n <= j
    ensures e < |t[x]|
    ensures Built(t[x := t[x][e := Link(l, j, |t|)]] + [Blanks(Pow2(j))],
                  Forest(f.t[x := f.t[x][e := Link(l, n, |f.t|)]] + [Blanks(Pow2(n))], f.pre + [p], f.need + [n]),
                  w + [j])
  {
    hide Pow2, Shape, BuiltTable;
    TableSize(t[x], f.t[x], w[x], w);
    var t2 := t[x := t[x][e := Link(l, j, |t|)]] + [Blanks(Pow2(j))];
    var ideal := f.t[x := f.t[x][e := Link(l, n, |f.t|)]] + [Blanks(Pow2(n))];
    forall id | 0 <= id < |t2| ensures BuiltTable(t2[id], ideal[id], (w + [j])[id], w + [j]) {
      if id == |t| {
        BlanksBuilt(n, j, w + [j]);
      } else {
        LinksInside(f, l, id);
        MoreWidths(t[id], f.t[id], w[id], w, j);
        if id == x {
          LinkBuilt(t[x], f.t[x], w[x], w, e, l, n, j);
        }
      }
    }
  }

  lemma TableSize(q: seq<Entry>, ideal: seq<Entry>, n: nat, w: seq<nat>)
    requires BuiltTable(q, ideal, n, w)
    ensures |ideal| <= |q| == Pow2(n)
  {
  }

  /** Filling in a code in a table that is as wide as it needs to be. */
  lemma BuiltFill(t: Tables, f: Forest, w: seq<nat>, x: nat, first: nat, stride: nat, r: Entry)
    requires Built(t, f, w) && x < |t| && |f.t[x]| == Pow2(w[x]) && stride > 0 && !r.Link?
    ensures Built(t[x := Fill(t[x], first, stride, r)], FillTop(f, x, first, stride, r), w)
  {
    hide Pow2;
  }

  /** A wide table's further codes are longer still. */
  lemma RealLonger(t: Tables, f: Forest, w: seq<nat>, c: seq<nat>, g: nat, l: nat, k: nat)
    requires Real(t, f, w, c, g, l, k)
    ensures Real(t, f, w, c, g, l, k + 1)
  {
    hide Hollow;
    forall id | 0 <= id < |w| ensures FairWidth(f.pre[id], f.need[id], w[id], c, g, l, k + 1) {
      assert FairWidth(f.pre[id], f.need[id], w[id], c, g, l, k);
    }
  }

  lemma MoreFair(f: Forest, w: seq<nat>, c: seq<nat>, g: nat, l: nat, k: nat, t: Tables, p: seq<bool>, n: nat, j: nat)
    requires FairWidths(f, w, c, g, l, k) && FairWidth(p, n, j, c, g, l, k)
    ensures FairWidths(Forest(t, f.pre + [p], f.need + [n]), w + [j], c, g, l, k)
  {
    hide FairWidth;
  }
}
