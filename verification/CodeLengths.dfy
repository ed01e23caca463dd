/** Run-length coding of the code lengths of a block: sending, tallying and restoring. */
module CodeLengths {
  import opened Wrappers

  const REP_3_6: nat := 16
  const REPZ_3_10: nat := 17
  const REPZ_11_138: nat := 18
  const BL_CODES: nat := 19
  const GUARD: nat := 0xffff

  /** A symbol of the code-length alphabet and the value of its extra bits. */
  datatype Sym = Sym(code: nat, extra: nat)

  predicate LensOk(lens: seq<nat>) { forall i :: 0 <= i < |lens| ==> lens[i] < 16 }

  /** The length that follows position n, or the guard behind the last one. */
  function LenAt(lens: seq<nat>, n: nat): nat { if n < |lens| then lens[n] else GUARD }

  // prev is the last length sent, -1 at the start of a tree.

  function MaxCount(prev: int, len: nat): nat { if len == 0 then 138 else if prev == len then 6 else 7 }
  function MinCount(prev: int, len: nat): nat { if len == 0 || prev == len then 3 else 4 }

  function Repeat<T>(x: T, n: nat): (r: seq<T>)
    ensures |r| == n && forall i :: 0 <= i < n ==> r[i] == x
  {
    seq(n, _ => x)
  }

  /** The symbols for a run of count equal lengths. */
  function Emit(prev: int, len: nat, count: nat): (r: seq<Sym>)
    requires count > 0
  {
    if count < MinCount(prev, len) then Repeat(Sym(len, 0), count)
    else if len != 0 then
      if len != prev then [Sym(len, 0), Sym(REP_3_6, count - 4)] else [Sym(REP_3_6, count - 3)]
    else if count <= 10 then [Sym(REPZ_3_10, count - 3)]
    else [Sym(REPZ_11_138, count - 11)]
  }

  /** The run that has reached count at position n goes on. */
  predicate Continues(lens: seq<nat>, n: nat, prev: int, count: nat)
    requires n < |lens|
  {
    count < MaxCount(prev, lens[n]) && lens[n] == LenAt(lens, n + 1)
  }

  /** What send_tree sends from position n on, with count lengths of a run pending. */
  function Sent(lens: seq<nat>, n: nat, prev: int, count: nat): (r: seq<Sym>)
    requires n <= |lens|
    decreases |lens| - n
  {
    if n == |lens| then []
    else if Continues(lens, n, prev, count + 1) then Sent(lens, n + 1, prev, count + 1)
    else Emit(prev, lens[n], count + 1) + Sent(lens, n + 1, lens[n], 0)
  }

  function Tree(lens: seq<nat>): seq<Sym> { Sent(lens, 0, -1, 0) }

  // The decoder.

  predicate SymOk(s: Sym) {
    s.code < BL_CODES
    && s.extra < if s.code == 18 then 128 else if s.code == 17 then 8 else if s.code == 16 then 4 else 1
  }

  function Times(s: Sym): nat { if s.code == 18 then 11 + s.extra else 3 + s.extra }

  /** Lengths restored up to total, with the symbols that remain; None is a data error. */
  function Restore(syms: seq<Sym>, total: nat, lens: seq<nat>): (r: Option<(seq<nat>, seq<Sym>)>)
    decreases |syms|
  {
    if |lens| >= total then Some((lens, syms))
    else if syms == [] then None
    else
      var s := syms[0];
      if s.code < 16 then Restore(syms[1..], total, lens + [s.code])
      else if |lens| + Times(s) > total || (s.code == 16 && |lens| < 1) then None
      else Restore(syms[1..], total, lens + Repeat(if s.code == 16 then lens[|lens| - 1] else 0, Times(s)))
  }

  /** The last length restored is prev, if there was one. */
  predicate Follows(lens: seq<nat>, prev: int) {
    prev >= 0 ==> lens != [] && lens[|lens| - 1] == prev
  }

  lemma {:induction false} RestoreCopies(len: nat, count: nat, rest: seq<Sym>, total: nat, lens: seq<nat>)
    requires len < 16 && |lens| + count <= total
    ensures Restore(Repeat(Sym(len, 0), count) + rest, total, lens) == Restore(rest, total, lens + Repeat(len, count))
    decreases count
  {
    var syms := Repeat(Sym(len, 0), count) + rest;
    if count == 0 {
      assert syms == rest && lens + Repeat(len, 0) == lens;
    } else {
      assert syms[1..] == Repeat(Sym(len, 0), count - 1) + rest;
      RestoreCopies(len, count - 1, rest, total, lens + [len]);
      assert lens + [len] + Repeat(len, count - 1) == lens + Repeat(len, count);
    }
  }

  lemma RestoreRepeat(s: Sym, rest: seq<Sym>, total: nat, lens: seq<nat>, len: nat)
    requires 16 <= s.code < BL_CODES && |lens| + Times(s) <= total
    requires if s.code == 16 then Follows(lens, len) else len == 0
    ensures Restore([s] + rest, total, lens) == Restore(rest, total, lens + Repeat(len, Times(s)))
  {
  }

  /**
   * The three repeat symbols of section 3.2.7 of RFC 1951: the length before three to six times more,
   * and three to ten or eleven to 138 zeros.
   */
  lemma RepeatsMean(extra: nat, rest: seq<Sym>, total: nat, lens: seq<nat>)
    requires |lens| < total
    ensures Restore([Sym(16, extra)] + rest, total, lens) ==
      if lens == [] || |lens| + 3 + extra > total then None
      else Restore(rest, total, lens + Repeat(lens[|lens| - 1], 3 + extra))
    ensures Restore([Sym(17, extra)] + rest, total, lens) ==
      if |lens| + 3 + extra > total then None else Restore(rest, total, lens + Repeat(0, 3 + extra))
    ensures Restore([Sym(18, extra)] + rest, total, lens) ==
      if |lens| + 11 + extra > total then None else Restore(rest, total, lens + Repeat(0, 11 + extra))
  {
    assert forall s: Sym :: ([s] + rest)[1..] == rest;
  }

  /** Restoring the symbols of a run gives the run. */
  lemma RestoreRun(prev: int, len: nat, count: nat, rest: seq<Sym>, total: nat, lens: seq<nat>)
    requires 0 < count <= MaxCount(prev, len) && len < 16
    requires Follows(lens, prev) && |lens| + count <= total
    ensures Restore(Emit(prev, len, count) + rest, total, lens) == Restore(rest, total, lens + Repeat(len, count))
  {
    if count < MinCount(prev, len) {
      RestoreCopies(len, count, rest, total, lens);
    } else if len != 0 && len != prev {
      var s := Sym(REP_3_6, count - 4);
      assert [Sym(len, 0), s] + rest == [Sym(len, 0)] + ([s] + rest);
      assert ([Sym(len, 0)] + ([s] + rest))[1..] == [s] + rest;
      RestoreRepeat(s, rest, total, lens + [len], len);
      assert lens + [len] + Repeat(len, count - 1) == lens + Repeat(len, count);
    } else {
      var s := Emit(prev, len, count)[0];
      RestoreRepeat(s, rest, total, lens, len);
    }
  }

  predicate Pending(lens: seq<nat>, n: nat, count: nat) {
    && count <= n < |lens|
    && forall i :: n - count <= i < n ==> lens[i] == lens[n]
  }

  /** The decoder restores what is sent from position n on, whatever follows. */
  lemma {:induction false} SentRestored(lens: seq<nat>, n: nat, prev: int, count: nat,
                                        rest: seq<Sym>, total: nat, done: seq<nat>)
    requires LensOk(lens) && n <= |lens|
    requires n < |lens| ==> Pending(lens, n, count) && count < MaxCount(prev, lens[n])
    requires n == |lens| ==> count == 0
    requires Follows(done, prev) && |done| + count + |lens| - n <= total
    ensures Restore(Sent(lens, n, prev, count) + rest, total, done)
         == Restore(rest, total, done + lens[n - count..])
    decreases |lens| - n
  {
    hide Restore, Emit;
    if n == |lens| {
      assert [] + rest == rest && done + lens[n..] == done;
    } else if Continues(lens, n, prev, count + 1) {
      SentRestored(lens, n + 1, prev, count + 1, rest, total, done);
    } else {
      var tail := Sent(lens, n + 1, lens[n], 0);
      var run := Repeat(lens[n], count + 1);
      assert Emit(prev, lens[n], count + 1) + tail + rest == Emit(prev, lens[n], count + 1) + (tail + rest);
      RestoreRun(prev, lens[n], count + 1, tail + rest, total, done);
      SentRestored(lens, n + 1, lens[n], 0, rest, total, done + run);
      assert done + run + lens[n + 1..] == done + lens[n - count..];
    }
  }

  /** Both trees of a block, sent in turn, are restored exactly, and nothing beyond them is read. */
  lemma TreesRestored(lit: seq<nat>, dist: seq<nat>, rest: seq<Sym>)
    requires LensOk(lit) && LensOk(dist)
    ensures Restore(Tree(lit) + Tree(dist) + rest, |lit| + |dist|, []) == Some((lit + dist, rest))
  {
    var total := |lit| + |dist|;
    assert Tree(lit) + Tree(dist) + rest == Tree(lit) + (Tree(dist) + rest);
    SentRestored(lit, 0, -1, 0, Tree(dist) + rest, total, []);
    assert [] + lit[0..] == lit;
    SentRestored(dist, 0, -1, 0, rest, total, lit);
    assert lit + dist[0..] == lit + dist;
  }

  lemma {:induction false} SentOk(lens: seq<nat>, n: nat, prev: int, count: nat, k: nat)
    requires LensOk(lens) && n <= |lens|
    requires n < |lens| ==> count < MaxCount(prev, lens[n])
    requires k < |Sent(lens, n, prev, count)|
    ensures SymOk(Sent(lens, n, prev, count)[k])
    decreases |lens| - n
  {
    if Continues(lens, n, prev, count + 1) {
      SentOk(lens, n + 1, prev, count + 1, k);
    } else {
      var run := Emit(prev, lens[n], count + 1);
      if k >= |run| {
        SentOk(lens, n + 1, lens[n], 0, k - |run|);
      }
    }
  }

  /** Every symbol sent is in the alphabet and its extra value fits its extra bits. */
  lemma TreeOk(lens: seq<nat>)
    requires LensOk(lens)
    ensures forall k :: 0 <= k < |Tree(lens)| ==> SymOk(Tree(lens)[k])
  {
    forall k | 0 <= k < |Tree(lens)| ensures SymOk(Tree(lens)[k]) {
      SentOk(lens, 0, -1, 0, k);
    }
  }

  // Frequencies.

  function Count(syms: seq<Sym>, c: nat): (k: nat) {
    if syms == [] then 0 else (if syms[|syms| - 1].code == c then 1 else 0) + Count(syms[..|syms| - 1], c)
  }

  lemma {:induction false} CountConcat(a: seq<Sym>, b: seq<Sym>, c: nat)
    ensures Count(a + b, c) == Count(a, c) + Count(b, c)
  {
    if b == [] {
      assert a + b == a;
    } else {
      assert (a + b)[..|a + b| - 1] == a + b[..|b| - 1];
      CountConcat(a, b[..|b| - 1], c);
    }
  }

  lemma {:induction false} CountRepeat(s: Sym, n: nat, c: nat)
    ensures Count(Repeat(s, n), c) == if s.code == c then n else 0
  {
    if n > 0 {
      assert Repeat(s, n)[..n - 1] == Repeat(s, n - 1);
      CountRepeat(s, n - 1, c);
    }
  }

  /** What scan_tree adds to the tally for one run. */
  function Tally(prev: int, len: nat, count: nat, c: nat): nat {
    if count < MinCount(prev, len) then (if c == len then count else 0)
    else if len != 0 then (if c == len && len != prev then 1 else 0) + (if c == REP_3_6 then 1 else 0)
    else if count <= 10 then (if c == REPZ_3_10 then 1 else 0)
    else (if c == REPZ_11_138 then 1 else 0)
  }

  lemma TallyIsCount(prev: int, len: nat, count: nat, c: nat)
    requires 0 < count && len < 16
    ensures Tally(prev, len, count, c) == Count(Emit(prev, len, count), c)
  {
    if count < MinCount(prev, len) {
      CountRepeat(Sym(len, 0), count, c);
    } else if len != 0 && len != prev {
      var a, b := [Sym(len, 0)], [Sym(REP_3_6, count - 4)];
      assert Emit(prev, len, count) == a + b;
      CountConcat(a, b, c);
      assert a[..0] == [] && b[..0] == [];
    } else {
      assert Emit(prev, len, count)[..0] == [];
    }
  }

  // The three loops.

  method SendRun(prev: int, cur: nat, count: nat, minCount: nat) returns (out: seq<Sym>)
    requires count > 0 && minCount == MinCount(prev, cur)
    ensures out == Emit(prev, cur, count)
  {
    out := [];
    var left := count;
    if left < minCount {
      while left != 0
        invariant left <= count && out == Repeat(Sym(cur, 0), count - left)
      {
        out := out + [Sym(cur, 0)];
        left := left - 1;
      }
    } else if cur != 0 {
      if cur != prev {
        out := out + [Sym(cur, 0)];
        left := left - 1;
      }
      out := out + [Sym(REP_3_6, left - 3)];
    } else if left <= 10 {
      out := out + [Sym(REPZ_3_10, left - 3)];
    } else {
      out := out + [Sym(REPZ_11_138, left - 11)];
    }
  }

  /** send_tree. */
  method SendTree(lens: seq<nat>) returns (out: seq<Sym>)
    requires LensOk(lens) && lens != []
    ensures out == Tree(lens)
  {
    hide Emit;
    out := [];
    var prev: int, next: nat, count: nat, n: nat := -1, lens[0], 0, 0;
    var maxCount, minCount := 7, 4;
    if next == 0 {
      maxCount, minCount := 138, 3;
    }
    while n < |lens|
      invariant 0 <= n <= |lens| && next == LenAt(lens, n)
      invariant maxCount == MaxCount(prev, next) && minCount == MinCount(prev, next)
      invariant out + Sent(lens, n, prev, count) == Tree(lens)
    {
      var cur := next;
      next := LenAt(lens, n + 1);
      count := count + 1;
      if count < maxCount && cur == next {
        n := n + 1;
        continue;
      }
      var run := SendRun(prev, cur, count, minCount);
      assert out + run + Sent(lens, n + 1, cur, 0) == out + (run + Sent(lens, n + 1, cur, 0));
      out := out + run;
      count, prev := 0, cur;
      if next == 0 {
        maxCount, minCount := 138, 3;
      } else if cur == next {
        maxCount, minCount := 6, 3;
      } else {
        maxCount, minCount := 7, 4;
      }
      n := n + 1;
    }
  }

  /** scan_tree: freq is the Freq column of bl_tree. */
  method ScanTree(lens: seq<nat>, freq: array<nat>)
    requires LensOk(lens) && lens != [] && freq.Length == BL_CODES
    modifies freq
    ensures forall c :: 0 <= c < BL_CODES ==> freq[c] == old(freq[c]) + Count(Tree(lens), c)
  {
    var prev: int, next: nat, count: nat, n: nat := -1, lens[0], 0, 0;
    while n < |lens|
      invariant 0 <= n <= |lens| && next == LenAt(lens, n)
      invariant forall c :: 0 <= c < BL_CODES ==>
        freq[c] + Count(Sent(lens, n, prev, count), c) == old(freq[c]) + Count(Tree(lens), c)
    {
      var cur := next;
      next := LenAt(lens, n + 1);
      count := count + 1;
      if count < MaxCount(prev, cur) && cur == next {
        n := n + 1;
        continue;
      }
      RunCounted(lens, n, prev, count);
      AddRun(freq, prev, cur, count);
      count, prev := 0, cur;
      n := n + 1;
    }
  }

  lemma RunCounted(lens: seq<nat>, n: nat, prev: int, count: nat)
    requires LensOk(lens) && n < |lens| && count > 0 && !Continues(lens, n, prev, count)
    ensures forall c :: Count(Sent(lens, n, prev, count - 1), c)
                     == Tally(prev, lens[n], count, c) + Count(Sent(lens, n + 1, lens[n], 0), c)
  {
    forall c: nat ensures Count(Sent(lens, n, prev, count - 1), c)
                       == Tally(prev, lens[n], count, c) + Count(Sent(lens, n + 1, lens[n], 0), c) {
      CountConcat(Emit(prev, lens[n], count), Sent(lens, n + 1, lens[n], 0), c);
      TallyIsCount(prev, lens[n], count, c);
    }
  }

  method AddRun(freq: array<nat>, prev: int, cur: nat, count: nat)
    requires freq.Length == BL_CODES && cur < 16
    modifies freq
    ensures forall c :: 0 <= c < BL_CODES ==> freq[c] == old(freq[c]) + Tally(prev, cur, count, c)
  {
    if count < MinCount(prev, cur) {
      freq[cur] := freq[cur] + count;
    } else if cur != 0 {
      if cur != prev {
        freq[cur] := freq[cur] + 1;
      }
      freq[REP_3_6] := freq[REP_3_6] + 1;
    } else if count <= 10 {
      freq[REPZ_3_10] := freq[REPZ_3_10] + 1;
    } else {
      freq[REPZ_11_138] := freq[REPZ_11_138] + 1;
    }
  }

  /** The DTREE loop of inflate_blocks. */
  method ReadLengths(syms: seq<Sym>, total: nat) returns (r: Option<(seq<nat>, seq<Sym>)>)
    ensures r == Restore(syms, total, [])
  {
    var blens, k := [], 0;
    while |blens| < total
      invariant 0 <= k <= |syms| && Restore(syms[k..], total, blens) == Restore(syms, total, [])
      decreases |syms| - k
    {
      if k == |syms| {
        return None;
      }
      var s := syms[k];
      assert syms[k..][1..] == syms[k + 1..];
      k := k + 1;
      if s.code < 16 {
        blens := blens + [s.code];
      } else {
        var j := if s.code == 18 then 11 + s.extra else 3 + s.extra;
        if |blens| + j > total || (s.code == 16 && |blens| < 1) {
          return None;
        }
        var c := if s.code == 16 then blens[|blens| - 1] else 0;
        ghost var before := blens;
        var i := 0;
        while i < j
          invariant 0 <= i <= j && blens == before + Repeat(c, i)
        {
          blens := blens + [c];
          i := i + 1;
        }
      }
    }
    return Some((blens, syms[k..]));
  }
}
