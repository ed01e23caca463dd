/** The hash chains of deflate: what insertion, sliding and following keep of them. */
module Lz77Chains {
  import opened Arith
  import opened Lz77Spec

  /** The heads of the chains by hash, and the link of every position modulo the window size; 0 ends a chain. */
  datatype Dict = Dict(head: map<nat, nat>, prev: seq<nat>)

  function HeadOf(d: Dict, key: nat): nat { if key in d.head then d.head[key] else 0 }

  /** A hash as an index of head. */
  function Key(v: bv16): nat { v as nat }

  lemma KeyInjective(a: bv16, b: bv16)
    requires Key(a) == Key(b)
    ensures a == b
  {
    assert (a as nat) as bv16 == a;
    assert (b as nat) as bv16 == b;
  }

  function HashAt(hs: Hashing, stream: seq<bv8>, x: nat): nat
    requires hs.shift < 8 && x + 2 < |stream|
  {
    Key(Hash3(hs, stream[x], stream[x + 1], stream[x + 2]))
  }

  /** The window starts at base; marks are the places inserted so far, last the latest of them or -1. */
  datatype View = View(hs: Hashing, w: nat, base: nat, stream: seq<bv8>, marks: set<nat>, last: int)

  predicate Marked(v: View, x: nat) { x in v.marks && x <= v.last && x + 2 < |v.stream| }

  predicate SameHash(v: View, x: nat, y: nat)
    requires v.hs.shift < 8
  {
    x + 2 < |v.stream| && y + 2 < |v.stream| && HashAt(v.hs, v.stream, x) == HashAt(v.hs, v.stream, y)
  }

  predicate HeadOk(d: Dict, v: View, key: nat)
    requires v.hs.shift < 8
  {
    var p := HeadOf(d, key);
    p != 0 ==> Marked(v, v.base + p) && HashAt(v.hs, v.stream, v.base + p) == key
  }

  /** The link of a place has not been overwritten by the place one window later. */
  predicate Live(v: View, x: nat) { v.base < x && v.last < x + v.w }

  predicate LinkOk(d: Dict, v: View, x: nat)
    requires v.hs.shift < 8 && |d.prev| == v.w > 0 && v.base < x
  {
    var p := x - v.base;
    var q := d.prev[p % v.w];
    q != 0 ==> q < p && Marked(v, v.base + q) && SameHash(v, v.base + q, x)
  }

  /** The head of its chain is no older than the string at x. */
  predicate Reached(d: Dict, v: View, x: nat)
    requires v.hs.shift < 8 && x + 2 < |v.stream|
  {
    v.base + HeadOf(d, HashAt(v.hs, v.stream, x)) >= x
  }

  /** The link of x skips no string of the same hash: it leads no further back than y. */
  predicate Skipless(d: Dict, v: View, x: nat, y: nat)
    requires v.hs.shift < 8 && |d.prev| == v.w > 0 && v.base < y < x
  {
    SameHash(v, y, x) ==> v.base + d.prev[(x - v.base) % v.w] >= y
  }

  /** No string inserted is forgotten while it is in the window. */
  predicate NoneForgotten(d: Dict, v: View)
    requires v.hs.shift < 8 && |d.prev| == v.w > 0
  {
    && (forall x :: x in v.marks && v.base < x && x + 2 < |v.stream| ==> Reached(d, v, x))
    && (forall x, y :: x in v.marks && y in v.marks && v.base < y < x && Live(v, x) ==> Skipless(d, v, x, y))
  }

  predicate ChainsOk(d: Dict, v: View) {
    && HashingOk(v.hs) && v.hs.shift < 8 && |d.prev| == v.w > 0 && NoneForgotten(d, v)
    && (forall x :: x in v.marks ==> Marked(v, x))
    && (forall key :: key in d.head ==> HeadOk(d, v, key))
    && (forall x :: x in v.marks && Live(v, x) ==> LinkOk(d, v, x))
  }

  /** The next place on the chain has the same hash and comes before. */
  lemma Follow(d: Dict, v: View, p: nat)
    requires ChainsOk(d, v) && Marked(v, v.base + p) && Live(v, v.base + p)
    ensures var q := d.prev[p % v.w];
      q != 0 ==> q < p && Marked(v, v.base + q) && SameHash(v, v.base + q, v.base + p)
  {
    hide HashAt, HashingOk, NoneForgotten, HeadOk;
    assert LinkOk(d, v, v.base + p);
  }

  lemma HeadIs(d: Dict, v: View, key: nat)
    requires ChainsOk(d, v)
    ensures v.hs.shift < 8 && HeadOk(d, v, key)
  {
    hide HashAt, HashingOk, NoneForgotten, LinkOk;
  }

  /** The head of a chain is the newest string with its hash. */
  lemma HeadNewest(d: Dict, v: View, y: nat)
    requires ChainsOk(d, v) && y in v.marks && v.base < y
    ensures v.hs.shift < 8 && y + 2 < |v.stream| && Reached(d, v, y)
  {
    hide HashAt, HashingOk, HeadOk, LinkOk;
    assert Marked(v, y);
  }

  /** And a link in reach leads to the newest one before. */
  lemma NoneBetween(d: Dict, v: View, x: nat, y: nat)
    requires ChainsOk(d, v) && x in v.marks && y in v.marks && v.base < y < x && Live(v, x)
    ensures v.hs.shift < 8 && |d.prev| == v.w > 0 && Skipless(d, v, x, y)
  {
    hide HashAt, HashingOk, HeadOk, LinkOk;
  }

  // More input.

  function Longer(v: View, more: seq<bv8>): View { v.(stream := v.stream + more) }

  lemma LongerHash(v: View, more: seq<bv8>, x: nat)
    requires v.hs.shift < 8 && x + 2 < |v.stream|
    ensures HashAt(v.hs, v.stream + more, x) == HashAt(v.hs, v.stream, x)
  {
  }

  lemma LongerOk(d: Dict, v: View, more: seq<bv8>)
    requires ChainsOk(d, v)
    ensures ChainsOk(d, Longer(v, more))
  {
    hide HashAt, HashingOk, NoneForgotten;
    var v2 := Longer(v, more);
    LongerKeeps(d, v, more);
    forall key | key in d.head ensures HeadOk(d, v2, key) {
      assert HeadOk(d, v, key);
      if d.head[key] != 0 {
        LongerHash(v, more, v.base + d.head[key]);
      }
    }
    forall x | x in v2.marks && Live(v2, x) ensures LinkOk(d, v2, x) {
      assert LinkOk(d, v, x);
      var q := d.prev[(x - v.base) % v.w];
      if q != 0 {
        LongerHash(v, more, v.base + q);
        LongerHash(v, more, x);
      }
    }
  }

  lemma LongerKeeps(d: Dict, v: View, more: seq<bv8>)
    requires ChainsOk(d, v)
    ensures NoneForgotten(d, Longer(v, more))
  {
    hide HashAt, HashingOk, HeadOk, LinkOk;
    var v2 := Longer(v, more);
    forall x | x in v2.marks && v2.base < x && x + 2 < |v2.stream| ensures Reached(d, v2, x) {
      assert Marked(v, x) && Reached(d, v, x);
      LongerHash(v, more, x);
    }
    forall x, y | x in v2.marks && y in v2.marks && v2.base < y < x && Live(v2, x) ensures Skipless(d, v2, x, y) {
      assert Marked(v, x) && Marked(v, y) && Skipless(d, v, x, y);
      LongerHash(v, more, x);
      LongerHash(v, more, y);
    }
  }

  lemma ShiftSmall(hs: Hashing)
    requires HashingOk(hs)
    ensures hs.shift < 8
  {
  }

  // Insertion.

  function Insert(d: Dict, w: nat, p: nat, key: nat): Dict
    requires |d.prev| == w > 0
  {
    Dict(d.head[key := p], d.prev[p % w := HeadOf(d, key)])
  }

  function Inserted(v: View, p: nat): View { v.(marks := v.marks + {v.base + p}, last := v.base + p) }

  lemma ModDiffer(a: nat, b: nat, w: nat)
    requires a < b < a + w
    ensures a % w != b % w
  {
    var q, r := a / w, a % w;
    assert a == q * w + r;
    Distribute(q, 1, w);
    if r + (b - a) < w {
      DivMod(b, q, r + (b - a), w);
    } else {
      DivMod(b, q + 1, r + (b - a) - w, w);
    }
  }

  predicate Insertable(d: Dict, v: View, p: nat, key: nat) {
    && ChainsOk(d, v) && v.base + p > v.last && v.base + p + 2 < |v.stream|
    && v.hs.shift < 8 && key == HashAt(v.hs, v.stream, v.base + p)
  }

  lemma InsertHead(d: Dict, v: View, p: nat, key: nat, k: nat)
    requires Insertable(d, v, p, key) && |d.prev| == v.w > 0
    ensures HeadOk(Insert(d, v.w, p, key), Inserted(v, p), k)
  {
    hide HashAt, HashingOk, ChainsOk, LinkOk;
    HeadIs(d, v, k);
    HeadAfter(d, v.w, p, key, k);
  }

  lemma HeadAfter(d: Dict, w: nat, p: nat, key: nat, k: nat)
    requires |d.prev| == w > 0
    ensures HeadOf(Insert(d, w, p, key), k) == if k == key then p else HeadOf(d, k)
  {
  }

  lemma LinkIs(d: Dict, v: View, x: nat)
    requires ChainsOk(d, v) && x in v.marks
    ensures v.hs.shift < 8 && |d.prev| == v.w > 0 && Marked(v, x)
    ensures Live(v, x) ==> LinkOk(d, v, x)
  {
    hide HashAt, HashingOk, NoneForgotten, HeadOk;
  }

  lemma InsertLink(d: Dict, v: View, p: nat, key: nat, x: nat)
    requires Insertable(d, v, p, key) && x in Inserted(v, p).marks && Live(Inserted(v, p), x)
    requires |d.prev| == v.w > 0
    ensures LinkOk(Insert(d, v.w, p, key), Inserted(v, p), x)
  {
    hide HashAt, HashingOk, ChainsOk;
    HeadIs(d, v, key);
    if x != v.base + p {
      LinkIs(d, v, x);
      ModDiffer(x - v.base, p, v.w);
    }
  }

  lemma InsertKeeps(d: Dict, v: View, p: nat, key: nat)
    requires Insertable(d, v, p, key) && |d.prev| == v.w > 0
    ensures NoneForgotten(Insert(d, v.w, p, key), Inserted(v, p))
  {
    hide HashAt, HashingOk, HeadOk, LinkOk;
    var d2, v2 := Insert(d, v.w, p, key), Inserted(v, p);
    forall x | x in v2.marks && v2.base < x && x + 2 < |v2.stream| ensures Reached(d2, v2, x) {
      HeadAfter(d, v.w, p, key, HashAt(v.hs, v.stream, x));
      if x != v.base + p {
        assert Marked(v, x) && Reached(d, v, x);
      }
    }
    forall x, y | x in v2.marks && y in v2.marks && v2.base < y < x && Live(v2, x) ensures Skipless(d2, v2, x, y) {
      InsertSkipless(d, v, p, key, x, y);
    }
  }

  lemma InsertSkipless(d: Dict, v: View, p: nat, key: nat, x: nat, y: nat)
    requires Insertable(d, v, p, key) && |d.prev| == v.w > 0
    requires x in Inserted(v, p).marks && y in Inserted(v, p).marks && v.base < y < x && Live(Inserted(v, p), x)
    ensures Skipless(Insert(d, v.w, p, key), Inserted(v, p), x, y)
  {
    hide HashAt, HashingOk, HeadOk, LinkOk;
    if x == v.base + p {
      assert Marked(v, y) && Reached(d, v, y);
    } else {
      assert Marked(v, x) && x < v.base + p && y in v.marks;
      assert Skipless(d, v, x, y);
      ModDiffer(x - v.base, p, v.w);
    }
  }

  lemma InsertOk(d: Dict, v: View, p: nat, key: nat)
    requires Insertable(d, v, p, key)
    ensures ChainsOk(Insert(d, v.w, p, key), Inserted(v, p))
  {
    hide HashAt, HashingOk, HeadOk, LinkOk, NoneForgotten;
    var d2, v2 := Insert(d, v.w, p, key), Inserted(v, p);
    InsertKeeps(d, v, p, key);
    forall k | k in d2.head ensures HeadOk(d2, v2, k) {
      InsertHead(d, v, p, key, k);
    }
    forall x | x in v2.marks && Live(v2, x) ensures LinkOk(d2, v2, x) {
      InsertLink(d, v, p, key, x);
    }
  }

  // Sliding.

  function Down(m: nat, w: nat): nat { if m >= w then m - w else 0 }

  function Slide(d: Dict, w: nat): Dict {
    Dict(map key | key in d.head :: Down(d.head[key], w),
         seq(|d.prev|, i requires 0 <= i < |d.prev| => Down(d.prev[i], w)))
  }

  function Slid(v: View): View { v.(base := v.base + v.w) }

  lemma SlidHead(d: Dict, v: View, key: nat)
    requires ChainsOk(d, v)
    ensures v.hs.shift < 8 && HeadOk(Slide(d, v.w), Slid(v), key)
  {
    hide HashAt, HashingOk, Slide, ChainsOk;
    HeadIs(d, v, key);
    SlideHead(d, v.w, key);
  }

  lemma SlidLink(d: Dict, v: View, x: nat)
    requires ChainsOk(d, v) && x in v.marks && Live(Slid(v), x)
    ensures v.hs.shift < 8 && |Slide(d, v.w).prev| == v.w && LinkOk(Slide(d, v.w), Slid(v), x)
  {
    hide HashAt, HashingOk, Slide, ChainsOk;
    LinkIs(d, v, x);
    SlideSize(d, v.w);
    SameSlot(x - v.base - v.w, v.w);
    SlideLink(d, v.w, (x - v.base) % v.w);
  }

  lemma SlideOk(d: Dict, v: View)
    requires ChainsOk(d, v)
    ensures ChainsOk(Slide(d, v.w), Slid(v))
  {
    hide HashAt, HashingOk, Slide, HeadOk, LinkOk, NoneForgotten;
    var d2, v2 := Slide(d, v.w), Slid(v);
    SlideSize(d, v.w);
    SlideKeeps(d, v);
    forall key | key in d2.head ensures HeadOk(d2, v2, key) {
      SlidHead(d, v, key);
    }
    forall x | x in v2.marks && Live(v2, x) ensures LinkOk(d2, v2, x) {
      SlidLink(d, v, x);
    }
  }

  lemma SlideKeeps(d: Dict, v: View)
    requires ChainsOk(d, v)
    ensures |Slide(d, v.w).prev| == v.w && NoneForgotten(Slide(d, v.w), Slid(v))
  {
    hide HashAt, HashingOk, Slide, HeadOk, LinkOk;
    var d2, v2 := Slide(d, v.w), Slid(v);
    SlideSize(d, v.w);
    forall x | x in v2.marks && v2.base < x && x + 2 < |v2.stream| ensures Reached(d2, v2, x) {
      assert Marked(v, x) && Reached(d, v, x);
      SlideHead(d, v.w, HashAt(v.hs, v.stream, x));
    }
    forall x, y | x in v2.marks && y in v2.marks && v2.base < y < x && Live(v2, x) ensures Skipless(d2, v2, x, y) {
      assert Skipless(d, v, x, y);
      SameSlot(x - v.base - v.w, v.w);
      SlideLink(d, v.w, (x - v.base) % v.w);
    }
  }

  lemma SlideHead(d: Dict, w: nat, key: nat)
    ensures HeadOf(Slide(d, w), key) == Down(HeadOf(d, key), w)
  {
  }

  lemma SlideSize(d: Dict, w: nat)
    ensures |Slide(d, w).prev| == |d.prev|
  {
  }

  lemma SlideLink(d: Dict, w: nat, i: nat)
    requires i < |d.prev|
    ensures i < |Slide(d, w).prev| && Slide(d, w).prev[i] == Down(d.prev[i], w)
  {
  }

  lemma SameSlot(p: nat, w: nat)
    requires w > 0
    ensures (p + w) % w == p % w
  {
    var q, r := p / w, p % w;
    assert p == q * w + r;
    Distribute(q, 1, w);
    DivMod(p + w, q + 1, r, w);
  }
}
