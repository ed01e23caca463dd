/** The heap of build_tree: nodes ordered by frequency, and by depth among equals. */
module HuffmanHeap {

  predicate Smaller(freq: seq<nat>, depth: seq<nat>, n: nat, m: nat)
    requires n < |freq| && m < |freq| && |depth| == |freq|
  {
    freq[n] < freq[m] || (freq[n] == freq[m] && depth[n] <= depth[m])
  }

  predicate Below(s: seq<nat>, n: nat) { forall i :: 0 <= i < |s| ==> s[i] < n }

  predicate Nodes(q: seq<nat>, freq: seq<nat>, depth: seq<nat>) { Below(q, |freq|) && |depth| == |freq| }

  // Positions are counted from 1: the sons of j are 2j and 2j + 1.

  predicate FatherOk(q: seq<nat>, freq: seq<nat>, depth: seq<nat>, j: nat)
    requires Nodes(q, freq, depth) && 2 <= j <= |q|
  {
    Smaller(freq, depth, q[j / 2 - 1], q[j - 1])
  }

  /** From position k on every father is smaller than its sons. */
  predicate Heap(q: seq<nat>, freq: seq<nat>, depth: seq<nat>, k: nat)
    requires Nodes(q, freq, depth)
  {
    forall j :: 2 <= j <= |q| && k <= j / 2 ==> FatherOk(q, freq, depth, j)
  }

  /** A heap from k on, except that the sons of `at` may be smaller than it, though not than its father. */
  predicate Open(q: seq<nat>, freq: seq<nat>, depth: seq<nat>, k: nat, at: nat)
    requires Nodes(q, freq, depth)
  {
    && 1 <= k <= at <= |q|
    && (forall j :: 2 <= j <= |q| && k <= j / 2 && j / 2 != at ==> FatherOk(q, freq, depth, j))
    && (forall j :: 2 <= j <= |q| && j / 2 == at && k <= at / 2 ==> Smaller(freq, depth, q[at / 2 - 1], q[j - 1]))
  }

  /** c is the smallest son of `at`. */
  predicate LeastSon(q: seq<nat>, freq: seq<nat>, depth: seq<nat>, at: nat, c: nat)
    requires Nodes(q, freq, depth)
  {
    && 2 <= c <= |q| && c / 2 == at
    && forall j :: 2 <= j <= |q| && j / 2 == at ==> Smaller(freq, depth, q[c - 1], q[j - 1])
  }

  function Swapped(q: seq<nat>, at: nat, c: nat): (r: seq<nat>)
    requires 1 <= at <= |q| && 1 <= c <= |q|
    ensures |r| == |q|
  {
    q[at - 1 := q[c - 1]][c - 1 := q[at - 1]]
  }

  /** The element at `at` changes places with its smallest son, which is smaller. */
  lemma SwapDown(q: seq<nat>, freq: seq<nat>, depth: seq<nat>, k: nat, at: nat, c: nat)
    requires Nodes(q, freq, depth) && Open(q, freq, depth, k, at) && LeastSon(q, freq, depth, at, c)
    requires !Smaller(freq, depth, q[at - 1], q[c - 1])
    ensures var r := Swapped(q, at, c); Nodes(r, freq, depth) && Open(r, freq, depth, k, c)
  {
    var r := Swapped(q, at, c);
    forall j | 2 <= j <= |q| && k <= j / 2 && j / 2 != c ensures FatherOk(r, freq, depth, j) {
      if j / 2 != at && j != at {
        assert FatherOk(q, freq, depth, j);
      }
    }
    forall j | 2 <= j <= |q| && j / 2 == c ensures Smaller(freq, depth, r[at - 1], r[j - 1]) {
      assert FatherOk(q, freq, depth, j);
    }
  }

  /** Nothing is below `at` that is smaller. */
  lemma Closed(q: seq<nat>, freq: seq<nat>, depth: seq<nat>, k: nat, at: nat)
    requires Nodes(q, freq, depth) && Open(q, freq, depth, k, at)
    requires forall j :: 2 <= j <= |q| && j / 2 == at ==> Smaller(freq, depth, q[at - 1], q[j - 1])
    ensures Heap(q, freq, depth, k)
  {
  }

  lemma SwapSame(s: seq<nat>, i: nat, j: nat, v: nat)
    requires i < |s| && j < |s| && i != j
    ensures multiset(s[i := s[j]][j := v]) == multiset(s[i := v])
  {
  }

  /** pqdownheap: the element at position k moves down until it is smaller than its sons. */
  method PqDownHeap(q: seq<nat>, freq: seq<nat>, depth: seq<nat>, k: nat) returns (r: seq<nat>)
    requires 1 <= k <= |q| && Nodes(q, freq, depth) && Heap(q, freq, depth, k + 1)
    ensures |r| == |q| && multiset(r) == multiset(q) && Nodes(r, freq, depth)
    ensures Heap(r, freq, depth, k)
  {
    hide Heap, Smaller, Open, LeastSon, Swapped, Below;
    r := q;
    var v, at, j := q[k - 1], k, 2 * k;
    assert r[at - 1 := v] == q;
    Bounded(q, freq, depth, k);
    FirstOpen(q, freq, depth, k);
    while j <= |q|
      invariant |r| == |q| && 1 <= at <= |q| && j == 2 * at && v < |freq|
      invariant multiset(r[at - 1 := v]) == multiset(q)
      invariant Nodes(r, freq, depth) && Nodes(r[at - 1 := v], freq, depth) && Open(r[at - 1 := v], freq, depth, k, at)
      decreases |q| - at
    {
      Bounded(r, freq, depth, j);
      if j < |q| && Smaller(freq, depth, r[j], r[j - 1]) {
        j := j + 1;
      }
      Bounded(r, freq, depth, j);
      Chosen(r[at - 1 := v], freq, depth, at, j);
      if Smaller(freq, depth, v, r[j - 1]) {
        Stop(r[at - 1 := v], freq, depth, k, at, j);
        return r[at - 1 := v];
      }
      MovedDown(r, freq, depth, k, at, j, v);
      r := r[at - 1 := r[j - 1]];
      at := j;
      j := 2 * j;
    }
    r := r[at - 1 := v];
    NoSons(r, freq, depth, k, at);
  }

  lemma Bounded(q: seq<nat>, freq: seq<nat>, depth: seq<nat>, j: nat)
    requires Nodes(q, freq, depth) && 1 <= j <= |q|
    ensures q[j - 1] < |freq| && (j < |q| ==> q[j] < |freq|)
  {
  }

  /** One round: the son goes up, and v would now stand where it was. */
  lemma MovedDown(r: seq<nat>, freq: seq<nat>, depth: seq<nat>, k: nat, at: nat, c: nat, v: nat)
    requires 1 <= at < c <= |r| && v < |freq| && Nodes(r, freq, depth)
    requires var s := r[at - 1 := v];
      && Nodes(s, freq, depth) && Open(s, freq, depth, k, at) && LeastSon(s, freq, depth, at, c)
      && !Smaller(freq, depth, v, r[c - 1])
    ensures var up := r[at - 1 := r[c - 1]];
      && multiset(up[c - 1 := v]) == multiset(r[at - 1 := v])
      && Nodes(up, freq, depth) && Nodes(up[c - 1 := v], freq, depth) && Open(up[c - 1 := v], freq, depth, k, c)
  {
    hide Open, LeastSon, Smaller;
    var s := r[at - 1 := v];
    SwapSame(r, at - 1, c - 1, v);
    SwapDown(s, freq, depth, k, at, c);
    assert r[at - 1 := r[c - 1]][c - 1 := v] == Swapped(s, at, c);
  }

  lemma NoSons(q: seq<nat>, freq: seq<nat>, depth: seq<nat>, k: nat, at: nat)
    requires Nodes(q, freq, depth) && Open(q, freq, depth, k, at) && 2 * at > |q|
    ensures Heap(q, freq, depth, k)
  {
  }

  lemma FirstOpen(q: seq<nat>, freq: seq<nat>, depth: seq<nat>, k: nat)
    requires 1 <= k <= |q| && Nodes(q, freq, depth) && Heap(q, freq, depth, k + 1)
    ensures Open(q, freq, depth, k, k)
  {
  }

  lemma Chosen(q: seq<nat>, freq: seq<nat>, depth: seq<nat>, at: nat, c: nat)
    requires Nodes(q, freq, depth) && 1 <= at && 2 * at <= c <= 2 * at + 1 && c <= |q|
    requires c == 2 * at && c < |q| ==> !Smaller(freq, depth, q[c], q[c - 1])
    requires c == 2 * at + 1 ==> Smaller(freq, depth, q[c - 1], q[c - 2])
    ensures LeastSon(q, freq, depth, at, c)
  {
  }

  lemma Stop(q: seq<nat>, freq: seq<nat>, depth: seq<nat>, k: nat, at: nat, c: nat)
    requires Nodes(q, freq, depth) && Open(q, freq, depth, k, at) && LeastSon(q, freq, depth, at, c)
    requires Smaller(freq, depth, q[at - 1], q[c - 1])
    ensures Heap(q, freq, depth, k)
  {
    Closed(q, freq, depth, k, at);
  }

  /** The first element of a heap is the smallest. */
  lemma {:induction false} TopLeast(q: seq<nat>, freq: seq<nat>, depth: seq<nat>, j: nat)
    requires Nodes(q, freq, depth) && Heap(q, freq, depth, 1) && 1 <= j <= |q|
    ensures Smaller(freq, depth, q[0], q[j - 1])
  {
    if j > 1 {
      assert FatherOk(q, freq, depth, j);
      TopLeast(q, freq, depth, j / 2);
    }
  }

  /** No node of q is smaller than a. */
  predicate Least(q: seq<nat>, freq: seq<nat>, depth: seq<nat>, a: nat)
    requires Nodes(q, freq, depth) && a < |freq|
  {
    forall i :: 0 <= i < |q| ==> Smaller(freq, depth, a, q[i])
  }

  lemma TopIsLeast(q: seq<nat>, freq: seq<nat>, depth: seq<nat>)
    requires Nodes(q, freq, depth) && Heap(q, freq, depth, 1) && |q| >= 1
    ensures Least(q, freq, depth, q[0])
  {
    forall i | 0 <= i < |q| ensures Smaller(freq, depth, q[0], q[i]) {
      TopLeast(q, freq, depth, i + 1);
    }
  }

  lemma PermBelow(q: seq<nat>, r: seq<nat>, n: nat)
    requires Below(q, n) && multiset(r) == multiset(q)
    ensures Below(r, n)
  {
    forall i | 0 <= i < |r| ensures r[i] < n {
      assert r[i] in multiset(r);
      assert r[i] in q;
    }
  }

  /** pqremove: the smallest node leaves the heap. */
  method Remove(q: seq<nat>, freq: seq<nat>, depth: seq<nat>, ghost node: nat) returns (top: nat, r: seq<nat>)
    requires |q| >= 2 && Below(q, node) && node <= |freq| == |depth| && Heap(q, freq, depth, 1)
    ensures |r| == |q| - 1 && Below(r, node) && top < node
    ensures multiset(q) == multiset(r) + multiset{top}
    ensures Heap(r, freq, depth, 1) && Least(q, freq, depth, top)
  {
    top := q[0];
    TopIsLeast(q, freq, depth);
    var last := |q| - 1;
    r := q[0 := q[last]][..last];
    assert q == q[..last] + [q[last]];
    assert r == q[..last][0 := q[last]];
    assert multiset(r) == multiset(q[..last]) - multiset{top} + multiset{q[last]};
    assert Below(r, node);
    ghost var before := r;
    TailHeap(q, freq, depth, r);
    r := PqDownHeap(r, freq, depth, 1);
    PermBelow(before, r, node);
  }

  /** Without its first and behind its last element a heap is one from 2 on. */
  lemma TailHeap(q: seq<nat>, freq: seq<nat>, depth: seq<nat>, r: seq<nat>)
    requires Nodes(q, freq, depth) && Nodes(r, freq, depth) && Heap(q, freq, depth, 1)
    requires |r| <= |q| && forall i :: 1 <= i < |r| ==> r[i] == q[i]
    ensures Heap(r, freq, depth, 2)
  {
    forall j | 2 <= j <= |r| && 2 <= j / 2 ensures FatherOk(r, freq, depth, j) {
      assert FatherOk(q, freq, depth, j);
    }
  }

  /** Frequencies and depths of other nodes do not matter. */
  lemma OtherNode(q: seq<nat>, freq: seq<nat>, depth: seq<nat>, node: nat, f: nat, d: nat)
    requires Nodes(q, freq, depth) && Below(q, node) && node < |freq| && |q| >= 1 && Heap(q, freq, depth, 1)
    ensures var r, freq2, depth2 := q[0 := node], freq[node := f], depth[node := d];
      Nodes(r, freq2, depth2) && Heap(r, freq2, depth2, 2)
  {
    var r, freq2, depth2 := q[0 := node], freq[node := f], depth[node := d];
    forall j | 2 <= j <= |r| && 2 <= j / 2 ensures FatherOk(r, freq2, depth2, j) {
      assert FatherOk(q, freq, depth, j);
    }
  }
}
