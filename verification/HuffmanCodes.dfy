/** Canonical Huffman codes: the code every symbol gets from the code lengths alone. */
module HuffmanCodes {
  import opened Arith
  import opened Bits
  import opened BitOrder

  const MAX_BITS: nat := 15

  /** How many codes have length k. */
  function Cnt(lens: seq<nat>, k: nat): (n: nat)
    ensures n <= |lens|
  {
    if lens == [] then 0 else Cnt(lens[..|lens| - 1], k) + if lens[|lens| - 1] == k then 1 else 0
  }

  predicate LensOk(lens: seq<nat>) { forall i :: 0 <= i < |lens| ==> lens[i] <= MAX_BITS }

  /** The number of codes of every length; index 0 counts nothing. */
  function Counts(lens: seq<nat>): (c: seq<nat>)
    ensures |c| == MAX_BITS + 1 && c[0] == 0
    ensures forall k :: 0 < k <= MAX_BITS ==> c[k] == Cnt(lens, k)
  {
    seq(MAX_BITS + 1, k requires 0 <= k => if k == 0 then 0 else Cnt(lens, k))
  }

  /** The first code of length k. */
  function First(c: seq<nat>, k: nat): (v: nat)
    requires k <= |c|
  {
    if k <= 1 then 0 else 2 * (First(c, k - 1) + c[k - 1])
  }

  /** No length has more codes than there is room for. */
  predicate Fits(c: seq<nat>) {
    |c| == MAX_BITS + 1 && c[0] == 0 && forall k :: 1 <= k <= MAX_BITS ==> First(c, k) + c[k] <= Pow2(k)
  }

  /** Where the codes of length k start, when the codes are laid out on 2^g places. */
  function Start(c: seq<nat>, g: nat, k: nat): (p: nat)
    requires k <= |c| && k <= g + 1
  {
    if k <= 1 then 0 else Start(c, g, k - 1) + c[k - 1] * Pow2(g - (k - 1))
  }

  /** The codes take up all the places there are. */
  predicate Complete(b: seq<nat>) {
    Start(Counts(b), MAX_BITS, MAX_BITS + 1) == Pow2(MAX_BITS)
  }

  lemma {:induction false} StartIsFirst(c: seq<nat>, g: nat, k: nat)
    requires 1 <= k <= |c| && k <= g
    ensures Start(c, g, k) == First(c, k) * Pow2(g - k)
  {
    if k > 1 {
      StartIsFirst(c, g, k - 1);
      var f, n, p := First(c, k - 1), c[k - 1], Pow2(g - k);
      assert Pow2(g - (k - 1)) == 2 * p;
      calc {
        f * (2 * p) + n * (2 * p);
        { Distribute(f, n, 2 * p); }
        (f + n) * (2 * p);
        { Double(f + n, p); Associate(2, f + n, p); }
        (2 * (f + n)) * p;
      }
    }
  }

  lemma {:induction false} StartMonotonic(c: seq<nat>, g: nat, j: nat, k: nat)
    requires j <= k <= |c| && k <= g + 1
    ensures Start(c, g, j) <= Start(c, g, k)
    decreases k - j
  {
    if j < k {
      StartMonotonic(c, g, j, k - 1);
    }
  }

  /** How many codes are shorter than k bits. */
  function Off(c: seq<nat>, k: nat): (n: nat)
    requires k <= |c|
  {
    if k <= 1 then 0 else Off(c, k - 1) + c[k - 1]
  }

  lemma StartNext(c: seq<nat>, g: nat, s: nat)
    requires 1 <= s <= g < |c|
    ensures Start(c, g, s + 1) == Start(c, g, s) + c[s] * Pow2(g - s)
  {
  }

  lemma {:induction false} StartFlat(c: seq<nat>, g: nat, j: nat, k: nat)
    requires 1 <= j <= k <= g + 1 && g < |c| && forall i :: j <= i < k ==> c[i] == 0
    ensures Start(c, g, k) == Start(c, g, j)
    decreases k
  {
    if j < k {
      StartFlat(c, g, j, k - 1);
    }
  }

  lemma OffNext(c: seq<nat>, k: nat)
    requires 1 <= k < |c|
    ensures Off(c, k + 1) == Off(c, k) + c[k]
  {
  }

  lemma {:induction false} CntPrefix(lens: seq<nat>, n: nat, k: nat)
    requires n <= |lens|
    ensures Cnt(lens[..n], k) <= Cnt(lens, k)
    ensures n < |lens| && lens[n] == k ==> Cnt(lens[..n], k) < Cnt(lens, k)
  {
    if n == |lens| {
      assert lens[..n] == lens;
    } else {
      var init := lens[..|lens| - 1];
      assert init[..n] == lens[..n];
      CntPrefix(init, n, k);
    }
  }

  /** How many symbols before n have its length. */
  function Rank(lens: seq<nat>, n: nat): (r: nat)
    requires n < |lens|
    ensures r < Cnt(lens, lens[n])
  {
    CntPrefix(lens, n, lens[n]);
    Cnt(lens[..n], lens[n])
  }

  function CodeValue(lens: seq<nat>, n: nat): (v: nat)
    requires LensOk(lens) && Fits(Counts(lens)) && n < |lens| && lens[n] > 0
    ensures v < Pow2(lens[n])
  {
    First(Counts(lens), lens[n]) + Rank(lens, n)
  }

  /** The code of symbol n, first bit first. */
  function Code(lens: seq<nat>, n: nat): (bits: seq<bool>)
    requires LensOk(lens) && Fits(Counts(lens)) && n < |lens| && lens[n] > 0
    ensures |bits| == lens[n]
  {
    ToBits(CodeValue(lens, n), lens[n])
  }

  /** Of two symbols of one length, the next one with it has the next code. */
  lemma NextOfLength(lens: seq<nat>, i: nat, j: nat)
    requires LensOk(lens) && Fits(Counts(lens)) && i < j < |lens| && lens[i] == lens[j] > 0
    requires forall k :: i < k < j ==> lens[k] != lens[i]
    ensures Val(Code(lens, j)) == Val(Code(lens, i)) + 1
  {
    hide Fits, First, Val, ToBits, Pow2;
    CntBetween(lens, i, j);
  }

  lemma {:induction false} CntBetween(lens: seq<nat>, i: nat, j: nat)
    requires i < j <= |lens| && forall k :: i < k < j ==> lens[k] != lens[i]
    ensures Cnt(lens[..j], lens[i]) == Cnt(lens[..i], lens[i]) + 1
    decreases j
  {
    CntNext(lens, j - 1);
    if i < j - 1 {
      CntBetween(lens, i, j - 1);
    }
  }

  lemma {:induction false} CntNone(lens: seq<nat>, n: nat, k: nat)
    requires n <= |lens| && forall i :: 0 <= i < n ==> lens[i] != k
    ensures Cnt(lens[..n], k) == 0
  {
    if n > 0 {
      CntNext(lens, n - 1);
      CntNone(lens, n - 1, k);
    }
  }

  lemma {:induction false} FirstAfter(c: seq<nat>, a: nat, b: nat)
    requires 1 <= a < b <= |c| && forall k :: a < k < b ==> c[k] == 0
    ensures First(c, b) == (First(c, a) + c[a]) * Pow2(b - a)
    decreases b
  {
    if b == a + 1 {
      assert Pow2(1) == 2;
    } else {
      FirstAfter(c, a, b - 1);
      var x, p := First(c, a) + c[a], Pow2(b - 1 - a);
      assert First(c, b) == 2 * First(c, b - 1);
      assert Pow2(b - a) == 2 * p;
      Double(x, p);
    }
  }

  lemma {:induction false} FirstNone(c: seq<nat>, b: nat)
    requires b <= |c| && forall k :: 0 < k < b ==> c[k] == 0
    ensures First(c, b) == 0
  {
    if b > 1 {
      FirstNone(c, b - 1);
    }
  }

  /** Behind the last code of a length comes, with zeros behind it, the first of the next length there is. */
  lemma FirstOfLonger(lens: seq<nat>, i: nat, j: nat)
    requires LensOk(lens) && Fits(Counts(lens)) && i < |lens| && j < |lens| && 0 < lens[i] < lens[j]
    requires forall k :: i < k < |lens| ==> lens[k] != lens[i]
    requires forall k :: 0 <= k < j ==> lens[k] != lens[j]
    requires forall k :: 0 <= k < |lens| ==> !(lens[i] < lens[k] < lens[j])
    ensures Val(Code(lens, j)) == (Val(Code(lens, i)) + 1) * Pow2(lens[j] - lens[i])
  {
    hide Fits, First, Val, ToBits, Pow2, Cnt;
    var c := Counts(lens);
    assert lens[..|lens|] == lens;
    CntBetween(lens, i, |lens|);
    CntNone(lens, j, lens[j]);
    forall k | lens[i] < k < lens[j] ensures c[k] == 0 {
      CntNone(lens, |lens|, k);
    }
    FirstAfter(c, lens[i], lens[j]);
  }

  /** The very first code is all zeros. */
  lemma FirstOfAll(lens: seq<nat>, j: nat)
    requires LensOk(lens) && Fits(Counts(lens)) && j < |lens| && lens[j] > 0
    requires forall k :: 0 <= k < j ==> lens[k] != lens[j]
    requires forall k :: 0 <= k < |lens| && lens[k] > 0 ==> lens[k] >= lens[j]
    ensures Val(Code(lens, j)) == 0
  {
    hide Fits, First, Val, ToBits, Pow2, Cnt;
    assert lens[..|lens|] == lens;
    CntNone(lens, j, lens[j]);
    forall k | 0 < k < lens[j] ensures Counts(lens)[k] == 0 {
      CntNone(lens, |lens|, k);
    }
    FirstNone(Counts(lens), lens[j]);
  }

  /** gen_codes: the field Code of every symbol that has a length, as send_bits puts it out. */
  method GenCodes(lens: seq<nat>, blCount: seq<nat>) returns (codes: seq<nat>)
    requires LensOk(lens) && blCount == Counts(lens) && Fits(blCount)
    ensures |codes| == |lens|
    ensures forall n :: 0 <= n < |lens| && lens[n] > 0 ==> codes[n] == Num(Code(lens, n))
  {
    hide First, Cnt, Fits, Num, Code, CodeValue;
    var nextCode := NextCodes(blCount);
    codes := [];
    var n := 0;
    assert lens[..0] == [];
    NoneYet();
    while n < |lens|
      invariant 0 <= n <= |lens| && |codes| == n
      invariant forall k :: 1 <= k <= MAX_BITS ==> nextCode[k] == First(blCount, k) + Cnt(lens[..n], k)
      invariant forall i :: 0 <= i < n && lens[i] > 0 ==> codes[i] == Num(Code(lens, i))
    {
      var len := lens[n];
      CntNext(lens, n);
      if len == 0 {
        codes := codes + [0];
      } else {
        CodeIs(lens, n);
        var r := BiReverse(nextCode[len], len);
        codes := codes + [r];
        nextCode[len] := nextCode[len] + 1;
      }
      n := n + 1;
    }
  }

  lemma NoneYet()
    ensures forall k :: Cnt([], k) == 0
  {
  }

  lemma CntNext(lens: seq<nat>, n: nat)
    requires n < |lens|
    ensures forall k :: Cnt(lens[..n + 1], k) == Cnt(lens[..n], k) + if lens[n] == k then 1 else 0
  {
    assert lens[..n + 1][..n] == lens[..n];
  }

  lemma CodeIs(lens: seq<nat>, n: nat)
    requires LensOk(lens) && Fits(Counts(lens)) && n < |lens| && lens[n] > 0
    ensures CodeValue(lens, n) == First(Counts(lens), lens[n]) + Cnt(lens[..n], lens[n]) < Pow2(lens[n])
    ensures Code(lens, n) == ToBits(CodeValue(lens, n), lens[n])
  {
  }

  method NextCode(blCount: seq<nat>, code: nat, k: nat) returns (r: nat)
    requires Fits(blCount) && 1 <= k <= MAX_BITS
    requires code == if k == 1 then 0 else First(blCount, k - 1)
    ensures r == First(blCount, k)
  {
    FirstFits(blCount, k);
    r := 2 * (code + blCount[k - 1]) % 0x1_0000;
  }

  /** The first loop of gen_codes, in sixteen-bit arithmetic. */
  method NextCodes(blCount: seq<nat>) returns (nextCode: array<nat>)
    requires Fits(blCount)
    ensures fresh(nextCode) && nextCode.Length == MAX_BITS + 1
    ensures forall k :: 1 <= k <= MAX_BITS ==> nextCode[k] == First(blCount, k)
  {
    nextCode := new nat[MAX_BITS + 1];
    var code: nat, k: nat := 0, 1;
    assert |blCount| == MAX_BITS + 1;
    hide First, Fits, Pow2;
    while k <= MAX_BITS
      invariant 1 <= k <= MAX_BITS + 1
      invariant code == if k == 1 then 0 else First(blCount, k - 1)
      invariant forall j :: 1 <= j < k ==> nextCode[j] == First(blCount, j)
    {
      code := NextCode(blCount, code, k);
      nextCode[k] := code;
      k := k + 1;
    }
  }

  lemma Pow2Fifteen()
    ensures Pow2(15) == 0x8000
  {
    assert Pow2(10) == 1024;
  }

  lemma Twice(k: nat)
    requires k > 0
    ensures Pow2(k) == 2 * Pow2(k - 1)
  {
  }

  /** The first code of a length, like every other, fits sixteen bits. */
  lemma FirstFits(c: seq<nat>, k: nat)
    requires Fits(c) && 1 <= k <= MAX_BITS
    ensures First(c, k) < 0x1_0000
    ensures First(c, k) == 2 * (c[k - 1] + if k == 1 then 0 else First(c, k - 1))
  {
    assert First(c, k) == 2 * (c[k - 1] + if k == 1 then 0 else First(c, k - 1));
    if k > 1 {
      hide Pow2, First;
      Pow2Monotonic(k, 15);
      Pow2Fifteen();
      assert First(c, k - 1) + c[k - 1] <= Pow2(k - 1);
      assert 2 * Pow2(k - 1) == Pow2(k) by { Twice(k); }
    }
  }

  // Prefix-freeness, from the places the codes take up.

  /** The places of a code among 2^g: its value and whatever g - k bits follow. */
  lemma Places(code: seq<bool>, s: seq<bool>)
    requires |code| <= |s|
    ensures code <= s <==> Val(code) * Pow2(|s| - |code|) <= Val(s) < (Val(code) + 1) * Pow2(|s| - |code|)
  {
    hide Val, Pow2;
    var k := |code|;
    var head, tail := s[..k], s[k..];
    assert s == head + tail;
    ValConcat(head, tail);
    ValBound(tail);
    var p := Pow2(|s| - k);
    Distribute(Val(code), 1, p);
    Distribute(Val(head), 1, p);
    if code <= s {
      assert code == head;
    } else {
      if Val(code) == Val(head) {
        ValInjective(code, head);
      }
      SeparatePlaces(Val(code), Val(head), p);
    }
  }

  lemma SeparatePlaces(a: nat, b: nat, p: nat)
    requires a != b && p > 0
    ensures a < b ==> (a + 1) * p <= b * p
    ensures b < a ==> (b + 1) * p <= a * p
  {
  }

  lemma MulLe(a: nat, b: nat, p: nat)
    requires a <= b
    ensures a * p <= b * p
  {
  }
}
