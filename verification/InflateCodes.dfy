/** The state-by-state decoder inflate_codes and the fast loop inflate_fast, each against the same specification. */
module InflateCodes {
  import opened Bits
  import opened BitOrder
  import HuffmanCodes
  import opened HuffmanTables
  import HuftDecode
  import opened InflateSpec

  /*
   * The bit buffer: k bits in b, the next octet at p. Octets given back stay in b above the
   * k bits until they are read again, when they are or-ed with themselves.
   */

  datatype Reader = Reader(b: nat, k: nat, p: nat)

  /** How many bits have been consumed. */
  function Pos(r: Reader): int { 8 * r.p - r.k }

  /** b holds the next e bits of the stream, and no more than a 32-bit word has. */
  predicate Loaded(r: Reader, bits: seq<bool>, e: nat) {
    && r.k <= 8 * r.p <= |bits| && r.k <= e <= WORD_BITS && Pos(r) + e <= |bits|
    && r.b == Num(bits[Pos(r)..Pos(r) + e])
  }

  ghost predicate ReaderOk(r: Reader, bits: seq<bool>) { exists e: nat :: Loaded(r, bits, e) }

  const WORD_BITS: nat := 32

  /** The octet after the first k bits, put over bits that may hold some of it already. */
  lemma OrSlices(bits: seq<bool>, lo: nat, k: nat, e: nat, n: nat)
    requires k <= e <= n && k + 8 <= n && (n == e || n == k + 8) && lo + n <= |bits|
    ensures OrBits(bits[lo..lo + e], Zeros(k) + bits[lo + k..lo + k + 8]) == bits[lo..lo + n]
  {
    hide OrBits, Zeros;
    var s, t := bits[lo..lo + e], Zeros(k) + bits[lo + k..lo + k + 8];
    var x, y := OrBits(s, t), bits[lo..lo + n];
    forall i | 0 <= i < n ensures x[i] == y[i] {
      assert i < e ==> s[i] == bits[lo + i];
      assert k <= i < k + 8 ==> t[i] == bits[lo + i];
    }
    assert x == y;
  }

  lemma OrOctet(bits: seq<bool>, lo: nat, k: nat, e: nat, n: nat)
    requires k <= e <= n && k + 8 <= n && (n == e || n == k + 8) && lo + n <= |bits|
    ensures Or(Num(bits[lo..lo + e]), Num(bits[lo + k..lo + k + 8]) * Pow2(k)) == Num(bits[lo..lo + n])
  {
    hide Num, Pow2, Or, OrBits, Zeros;
    var t := bits[lo + k..lo + k + 8];
    NumZeros(k);
    NumConcat(Zeros(k), t);
    assert Num(Zeros(k) + t) == Num(t) * Pow2(k);
    OrIs(bits[lo..lo + e], Zeros(k) + t);
    OrSlices(bits, lo, k, e, n);
  }

  /** One more octet into the buffer. */
  method NextByte(r: Reader, input: seq<byte>, ghost bits: seq<bool>) returns (r2: Reader)
    requires ReaderOk(r, bits) && bits == Stream(input) && r.p < |input| && r.k + 8 <= WORD_BITS
    ensures ReaderOk(r2, bits) && Pos(r2) == Pos(r) && r2.k == r.k + 8
  {
    hide Num, Pow2, Stream, Or;
    ghost var e: nat :| Loaded(r, bits, e);
    r2 := Reader(Or(r.b, input[r.p] * Pow2(r.k)), r.k + 8, r.p + 1);
    StreamAt(input, r.p);
    ghost var n := if e < r.k + 8 then r.k + 8 else e;
    OrOctet(bits, Pos(r), r.k, e, n);
    assert Loaded(r2, bits, n);
  }

  /** At least j bits in the buffer, if the input has them; no more octets than that takes. */
  method Grab(r: Reader, input: seq<byte>, j: nat, ghost bits: seq<bool>) returns (r2: Reader)
    requires ReaderOk(r, bits) && bits == Stream(input) && Pos(r) + j <= |bits| && j + 7 <= WORD_BITS
    ensures ReaderOk(r2, bits) && Pos(r2) == Pos(r) && r2.k >= j && (r2 == r || r2.k < j + 8)
  {
    hide ReaderOk, Stream;
    r2 := r;
    while r2.k < j
      invariant ReaderOk(r2, bits) && Pos(r2) == Pos(r) && (r2 == r || r2.k < j + 8)
      decreases j - r2.k
    {
      r2 := NextByte(r2, input, bits);
    }
  }

  lemma SliceIn(bits: seq<bool>, off: nat, n: nat, a: nat, b: nat)
    requires off + n <= |bits| && a <= b <= n
    ensures bits[off..off + n][a..b] == bits[off + a..off + b]
  {
    var x, y := bits[off..off + n][a..b], bits[off + a..off + b];
    assert |x| == |y| && forall i :: 0 <= i < |x| ==> x[i] == y[i];
  }

  /** The number in a slice, split after j bits. */
  lemma SliceSplit(bits: seq<bool>, lo: nat, e: nat, j: nat)
    requires j <= e && lo + e <= |bits|
    ensures Num(bits[lo..lo + e]) % Pow2(j) == Num(bits[lo..lo + j])
    ensures Num(bits[lo..lo + e]) / Pow2(j) == Num(bits[lo + j..lo + e])
  {
    hide Num, Pow2;
    var s := bits[lo..lo + e];
    NumSplit(s, j);
    SliceIn(bits, lo, e, 0, j);
    SliceIn(bits, lo, e, j, e);
    assert s[0..j] == s[..j] && s[j..e] == s[j..];
  }

  lemma Peeked(r: Reader, bits: seq<bool>, j: nat)
    requires ReaderOk(r, bits) && j <= r.k
    ensures 0 <= Pos(r) && Pos(r) + j <= |bits| && r.b % Pow2(j) == Num(bits[Pos(r)..Pos(r) + j])
  {
    hide Num, Pow2;
    var e: nat :| Loaded(r, bits, e);
    SliceSplit(bits, Pos(r), e, j);
  }

  /** j bits dropped. */
  method Dump(r: Reader, j: nat, ghost bits: seq<bool>) returns (r2: Reader)
    requires ReaderOk(r, bits) && j <= r.k
    ensures ReaderOk(r2, bits) && Pos(r2) == Pos(r) + j && r2.k == r.k - j && r2.p == r.p
  {
    hide Num, Pow2;
    ghost var e: nat :| Loaded(r, bits, e);
    SliceSplit(bits, Pos(r), e, j);
    r2 := Reader(r.b / Pow2(j), r.k - j, r.p);
    assert Loaded(r2, bits, e - j);
  }

  /** UNGRAB: whole octets that were not needed go back to the input, though their bits stay in b. */
  method Ungrab(r: Reader, ghost bits: seq<bool>) returns (r2: Reader)
    requires ReaderOk(r, bits)
    ensures ReaderOk(r2, bits) && Pos(r2) == Pos(r) && r2.k < 8 && r2.b == r.b
  {
    hide Num;
    ghost var e: nat :| Loaded(r, bits, e);
    var c := r.k / 8;
    r2 := Reader(r.b, r.k % 8, r.p - c);
    assert Loaded(r2, bits, e);
  }

  // Walking the tables.

  const MAX_CODE: nat := 15

  /** Fifteen bits always decide, no more than fifteen are consumed, and a symbol consumes some. */
  ghost predicate Sound(t: Tables, need: nat) {
    forall s: seq<bool> :: |s| == MAX_CODE ==> SoundFor(Walk(t, 0, need, s, 0))
  }

  predicate SoundFor(w: Result) { w != Stuck && w.used <= MAX_CODE && (w.Symbol? ==> w.used > 0) }

  function Shifted(w: Result, off: nat): Result {
    match w
    case Symbol(n, used) => Symbol(n, used + off)
    case BadCode(used) => BadCode(used + off)
    case Stuck => Stuck
  }

  lemma {:induction false} WalkShift(t: Tables, id: nat, need: nat, s: seq<bool>, pos: nat, off: nat, bits: seq<bool>)
    requires off + |s| <= |bits| && s == bits[off..off + |s|] && Walk(t, id, need, s, pos) != Stuck
    ensures Walk(t, id, need, bits, off + pos) == Shifted(Walk(t, id, need, s, pos), off)
    decreases |t| - id
  {
    hide Num;
    SliceIn(bits, off, |s|, pos, pos + need);
    var entry := t[id][Num(s[pos..pos + need])];
    if entry.Link? {
      WalkShift(t, entry.next, entry.need, s, pos + entry.bits, off, bits);
    }
  }

  /** The walk from pos, seen in the fifteen bits from there. */
  lemma SoundAt(t: Tables, need: nat, bits: seq<bool>, pos: nat)
    requires Sound(t, need) && pos + MAX_CODE <= |bits|
    ensures var w := Walk(t, 0, need, bits[pos..pos + MAX_CODE], 0);
      SoundFor(w) && Walk(t, 0, need, bits, pos) == Shifted(w, pos)
  {
    hide Walk;
    WalkShift(t, 0, need, bits[pos..pos + MAX_CODE], 0, pos, bits);
  }

  /** The entry at the next need bits, and what is left of the walk behind it. */
  lemma Looked(t: Tables, id: nat, need: nat, s: seq<bool>, at: nat)
    requires Walk(t, id, need, s, at) != Stuck
    ensures id < |t| && at + need <= |s| && Num(s[at..at + need]) < |t[id]|
    ensures var x := t[id][Num(s[at..at + need])];
      && !x.Blank?
      && (x.Leaf? ==> Walk(t, id, need, s, at) == Symbol(x.symbol, at + x.bits))
      && (x.Invalid? ==> Walk(t, id, need, s, at) == BadCode(at + x.bits))
      && (x.Link? ==> id < x.next && Walk(t, id, need, s, at) == Walk(t, x.next, x.need, s, at + x.bits)
                      && x.next < |t| && at + x.bits + x.need <= |s|)
  {
  }

  /** A walk in progress: at bits into s, which lies in the stream behind the reader's start. */
  ghost predicate Walking(t: Tables, id: nat, need: nat, s: seq<bool>, at: nat, w: Result) {
    |s| == MAX_CODE && w == Walk(t, id, need, s, at) && w != Stuck && w.used <= MAX_CODE
  }

  /** One lookup in a table, with the bits for it in the buffer. */
  method Look(t: Tables, id: nat, need: nat, r: Reader, ghost bits: seq<bool>, ghost s: seq<bool>, ghost at: nat,
              ghost w: Result)
    returns (x: Entry, r2: Reader)
    requires ReaderOk(r, bits) && Walking(t, id, need, s, at, w) && need <= r.k
    requires id < |t| && |t[id]| == Pow2(need) && forall e :: 0 <= e < |t[id]| ==> NeatEntry(t, id, e)
    requires at <= Pos(r) && Pos(r) - at + MAX_CODE <= |bits| && s == bits[Pos(r) - at..Pos(r) - at + MAX_CODE]
    ensures !x.Blank? && x.bits <= need
    ensures ReaderOk(r2, bits) && Pos(r2) == Pos(r) + x.bits && r2.k == r.k - x.bits && r2.p == r.p
    ensures x.Leaf? ==> w == Symbol(x.symbol, at + x.bits)
    ensures x.Invalid? ==> w == BadCode(at + x.bits)
    ensures x.Link? ==>
      Walking(t, x.next, x.need, s, at + x.bits, w) && id < x.next < |t|
      && |t[x.next]| == Pow2(x.need)
      && at + x.bits + x.need <= MAX_CODE
  {
    hide Walk, Num, Pow2;
    Looked(t, id, need, s, at);
    Peeked(r, bits, need);
    SliceIn(bits, Pos(r) - at, MAX_CODE, at, at + need);
    x := t[id][r.b % Pow2(need)];
    assert NeatEntry(t, id, r.b % Pow2(need));
    BitsIn(x.bits, need);
    r2 := Dump(r, x.bits, bits);
  }

  lemma BitsIn(a: nat, b: nat)
    requires Pow2(a) <= Pow2(b)
    ensures a <= b
  {
  }

  /** The bits of a code, in the buffer or still to come. */
  ghost predicate Ahead(r: Reader, bits: seq<bool>, n: nat) { ReaderOk(r, bits) && 0 <= Pos(r) && Pos(r) + n <= |bits| }

  /** inflate_fast: the walk, with at least fifteen bits in the buffer. */
  method FastWalk(t: Tables, need0: nat, r0: Reader, ghost bits: seq<bool>) returns (w: Result, r: Reader)
    requires Sound(t, need0) && Neat(t, need0) && Ahead(r0, bits, MAX_CODE) && r0.k >= MAX_CODE
    ensures w == Walk(t, 0, need0, bits, Pos(r0)) && w != Stuck
    ensures ReaderOk(r, bits) && Pos(r) == w.used <= Pos(r0) + MAX_CODE && r.p == r0.p
  {
    hide Walk, Pow2, Sound, Num, ReaderOk, Walking, NeatEntry;
    r := r0;
    ghost var s, at: nat := bits[Pos(r0)..Pos(r0) + MAX_CODE], 0;
    SoundAt(t, need0, bits, Pos(r0));
    ghost var goal := Walk(t, 0, need0, s, 0);
    var id, need := 0, need0;
    BeginWalk(t, need0, s);
    var x: Entry;
    while true
      invariant ReaderOk(r, bits) && Pos(r) == Pos(r0) + at && r.k == r0.k - at && r.p == r0.p
      invariant id < |t| && |t[id]| == Pow2(need) && at + need <= MAX_CODE && Walking(t, id, need, s, at, goal)
      decreases |t| - id
    {
      x, r := Look(t, id, need, r, bits, s, at, goal);
      at := at + x.bits;
      if !x.Link? {
        break;
      }
      id, need := x.next, x.need;
    }
    w := if x.Leaf? then Symbol(x.symbol, Pos(r)) else BadCode(Pos(r));
  }

  lemma BeginWalk(t: Tables, need: nat, s: seq<bool>)
    requires |s| == MAX_CODE && Walk(t, 0, need, s, 0) != Stuck && Walk(t, 0, need, s, 0).used <= MAX_CODE
    ensures Walking(t, 0, need, s, 0, Walk(t, 0, need, s, 0)) && need <= MAX_CODE
  {
  }

  // Copying in the window.

  lemma CopyOne(window: seq<byte>, q: nat, dist: nat, len: nat)
    requires 1 <= dist <= |window| && q + len <= |window| && len > 0
    ensures 0 <= Source(|window|, q, dist) < |window|
    ensures CopyWindow(window, q, dist, len)
         == CopyWindow(window[q := window[Source(|window|, q, dist)]], q + 1, dist, len - 1)
  {
  }

  /** c octets copied upwards from r to q, while r stays dist behind without wrapping. */
  method CopyRun(window0: seq<byte>, q: nat, r: nat, c: nat, ghost dist: nat, ghost len: nat)
    returns (window: seq<byte>)
    requires 1 <= dist <= |window0| && c <= len && q + len <= |window0| && r + c <= |window0|
    requires q >= dist ==> r == q - dist
    requires q < dist ==> r == |window0| - (dist - q) && c <= dist - q
    ensures |window| == |window0| && CopyWindow(window, q + c, dist, len - c) == CopyWindow(window0, q, dist, len)
  {
    window := window0;
    hide CopyWindow;
    var i := 0;
    while i < c
      invariant 0 <= i <= c && |window| == |window0|
      invariant CopyWindow(window, q + i, dist, len - i) == CopyWindow(window0, q, dist, len)
    {
      CopyOne(window, q + i, dist, len - i);
      window := window[q + i := window[r + i]];
      i := i + 1;
    }
  }

  /** The copy of inflate_fast: in one piece, or up to the end of the window and then from its start. */
  method FastCopy(window0: seq<byte>, q0: nat, d: nat, c0: nat) returns (window: seq<byte>)
    requires 1 <= d <= |window0| && q0 + c0 <= |window0| && c0 >= 3
    ensures window == CopyWindow(window0, q0, d, c0)
  {
    var q, c, r := q0, c0, 0;
    window := window0;
    if q >= d {
      r := q - d;
      window := CopyRun(window, q, r, 2, d, c0);
      q, r, c := q + 2, r + 2, c - 2;
    } else {
      var e := d - q;
      r := |window| - e;
      if c > e {
        c := c - e;
        window := CopyRun(window, q, r, e, d, c0);
        q, r := q + e, 0;
      }
    }
    window := CopyRun(window, q, r, c, d, c);
  }

  /** The copy of inflate_codes: octet by octet, the source wrapping at the end of the window. */
  method SlowCopy(window0: seq<byte>, q0: nat, dist: nat, len0: nat) returns (window: seq<byte>, q: nat)
    requires 1 <= dist <= |window0| && q0 + len0 <= |window0|
    ensures window == CopyWindow(window0, q0, dist, len0) && q == q0 + len0
  {
    hide CopyWindow;
    window, q := window0, q0;
    var len: nat := len0;
    var f: int := if q < dist then |window| - (dist - q) else q - dist;
    while len != 0
      invariant len <= len0 && q == q0 + len0 - len && |window| == |window0|
      invariant len > 0 ==> f == Source(|window|, q, dist)
      invariant CopyWindow(window, q, dist, len) == CopyWindow(window0, q0, dist, len0)
    {
      CopyOne(window, q, dist, len);
      window := window[q := window[f]];
      q, f := q + 1, f + 1;
      if f == |window| {
        f := 0;
      }
      len := len - 1;
    }
    CopyNone(window, q, dist);
  }

  lemma CopyNone(window: seq<byte>, q: nat, dist: nat)
    requires 1 <= dist <= |window| && q <= |window|
    ensures CopyWindow(window, q, dist, 0) == window
  {
  }

  // One symbol of inflate_fast.

  /** Some code of the literal tree is a length. */
  ghost predicate HasLengths(c: Codes) { exists s: seq<bool> :: IsLength(c, s) }

  predicate IsLength(c: Codes, s: seq<bool>) {
    |s| == MAX_CODE && var w := Walk(c.tl, 0, c.bl, s, 0); w.Symbol? && w.symbol > END_BLOCK
  }

  /** A distance tree is needed only with lengths. */
  ghost predicate CodesOk(c: Codes) {
    Sound(c.tl, c.bl) && Neat(c.tl, c.bl) && (HasLengths(c) ==> Sound(c.td, c.bd) && Neat(c.td, c.bd))
  }

  lemma MetLength(c: Codes, bits: seq<bool>, pos: nat)
    requires CodesOk(c) && pos + MAX_CODE <= |bits|
    requires var w := Walk(c.tl, 0, c.bl, bits, pos); w.Symbol? && w.symbol > END_BLOCK
    ensures Sound(c.td, c.bd) && Neat(c.td, c.bd)
  {
    hide Sound, Neat, Walk;
    SoundAt(c.tl, c.bl, bits, pos);
    assert IsLength(c, bits[pos..pos + MAX_CODE]);
  }

  lemma LengthLimits(i: nat)
    requires i < LENGTH_CODES && LengthExtra(i) != INVALID
    ensures LengthExtra(i) <= 5 && LengthBase(i) >= 3
  {
  }

  lemma DistanceLimits(i: nat)
    requires i < DIST_CODES
    ensures DistExtra(i) <= 13 && DistBase(i) >= 1
  {
  }

  /** The number in the next j bits, which are in the buffer. */
  method Take(r: Reader, j: nat, ghost bits: seq<bool>) returns (n: nat, r2: Reader)
    requires ReaderOk(r, bits) && j <= r.k
    ensures 0 <= Pos(r) && Pos(r) + j <= |bits| && n == Extra(bits, Pos(r), j)
    ensures ReaderOk(r2, bits) && Pos(r2) == Pos(r) + j && r2.k == r.k - j && r2.p == r.p
  {
    hide ReaderOk, Num, Pow2;
    Peeked(r, bits, j);
    n := r.b % Pow2(j);
    r2 := Dump(r, j, bits);
  }

  /** A literal, a copy or the end, without a check for input or room in between. */
  method FastOne(c: Codes, input: seq<byte>, r0: Reader, window0: seq<byte>, q0: nat, ghost bits: seq<bool>)
    returns (r: Reader, window: seq<byte>, q: nat, status: Status)
    requires CodesOk(c) && bits == Stream(input) && ReaderOk(r0, bits) && 0 <= Pos(r0)
    requires r0.p + 10 <= |input| && One(c, bits, window0, q0, Pos(r0)).status != Unspecified
    ensures ReaderOk(r, bits) && 0 <= Pos(r) && Out(window, q, Pos(r), status) == One(c, bits, window0, q0, Pos(r0))
  {
    hide ReaderOk, Walk, Sound, Neat, HasLengths, Stream, Extra, LengthExtra, LengthBase, AfterLength;
    window, q := window0, q0;
    r := Grab(r0, input, 20, bits);
    var w: Result;
    w, r := FastWalk(c.tl, c.bl, r, bits);
    if w.BadCode? {
      return r, window, q, DataError;
    }
    if w.symbol < LITERALS {
      return r, window[q := w.symbol], q + 1, More;
    }
    if w.symbol == END_BLOCK {
      return r, window, q, EndOfBlock;
    }
    var i := w.symbol - 257;
    if LengthExtra(i) == INVALID {
      return r, window, q, DataError;
    }
    LengthLimits(i);
    MetLength(c, bits, Pos(r0));
    var extra: nat;
    extra, r := Take(r, LengthExtra(i), bits);
    var len := LengthBase(i) + extra;
    r, window, q, status := FastDistance(c, input, r, window, q, len, bits);
  }

  method FastDistance(c: Codes, input: seq<byte>, r0: Reader, window0: seq<byte>, q0: nat, len: nat,
                      ghost bits: seq<bool>)
    returns (r: Reader, window: seq<byte>, q: nat, status: Status)
    requires Sound(c.td, c.bd) && Neat(c.td, c.bd) && bits == Stream(input) && ReaderOk(r0, bits) && 0 <= Pos(r0)
    requires Pos(r0) + 28 <= |bits| && len >= 3 && AfterLength(c, bits, window0, q0, Pos(r0), len).status != Unspecified
    ensures ReaderOk(r, bits) && 0 <= Pos(r)
    ensures Out(window, q, Pos(r), status) == AfterLength(c, bits, window0, q0, Pos(r0), len)
  {
    hide ReaderOk, Walk, Sound, Neat, Stream, Extra, DistExtra, DistBase, CopyWindow;
    window, q := window0, q0;
    r := Grab(r0, input, MAX_CODE, bits);
    var w: Result;
    w, r := FastWalk(c.td, c.bd, r, bits);
    if w.BadCode? {
      return r, window, q, DataError;
    }
    DistanceLimits(w.symbol);
    r := Grab(r, input, DistExtra(w.symbol), bits);
    var extra: nat;
    extra, r := Take(r, DistExtra(w.symbol), bits);
    var d := DistBase(w.symbol) + extra;
    window := FastCopy(window, q, d, len);
    return r, window, q + len, More;
  }

  /** Before the next symbol there are the bits it may take and room for all it may write. */
  predicate Ready(bits: seq<bool>, o: Out) {
    o.status == More && o.pos + MAX_ASKED <= |bits| && o.q + MAX_MATCH <= |o.window|
  }

  const MAX_ASKED: nat := 48
  const MAX_MATCH: nat := 258

  /** No symbol with its bits and room at hand has a distance beyond the window or lies outside the alphabets. */
  ghost predicate Valid(c: Codes, bits: seq<bool>, o: Out) {
    forall k: nat :: Ready(bits, Run(c, bits, o, k)) ==> Run(c, bits, o, k + 1).status != Unspecified
  }

  lemma ValidAt(c: Codes, bits: seq<bool>, o: Out, k: nat)
    requires Valid(c, bits, o) && Ready(bits, Run(c, bits, o, k))
    ensures Run(c, bits, o, k + 1).status != Unspecified
  {
  }

  /** The run goes on for count symbols, each with its bits and its room at hand. */
  ghost predicate Fed(c: Codes, bits: seq<bool>, o: Out, count: nat) {
    forall k: nat :: k < count ==> Ready(bits, Run(c, bits, o, k))
  }

  /** count symbols lead from o to o2, each with its bits and its room at hand. */
  ghost predicate Reaches(c: Codes, bits: seq<bool>, o: Out, count: nat, o2: Out) {
    o2 == Run(c, bits, o, count) && Fed(c, bits, o, count)
  }

  lemma NothingFed(c: Codes, bits: seq<bool>, o: Out)
    ensures Fed(c, bits, o, 0)
  {
  }

  lemma MoreFed(c: Codes, bits: seq<bool>, o: Out, count: nat)
    requires Fed(c, bits, o, count) && Ready(bits, Run(c, bits, o, count))
    ensures Fed(c, bits, o, count + 1)
  {
  }

  lemma AheadOf(r: Reader, input: seq<byte>, bits: seq<bool>)
    requires ReaderOk(r, bits) && bits == Stream(input)
    ensures r.k <= WORD_BITS && (r.p + 10 <= |input| ==> Pos(r) + MAX_ASKED <= |bits|)
  {
  }

  /** A symbol that is not the last writes at least one octet; none changes the size of the window. */
  lemma MoreWrites(c: Codes, bits: seq<bool>, window: seq<byte>, q: nat, pos: nat)
    ensures var o := One(c, bits, window, q, pos); |o.window| == |window| && (o.status == More ==> o.q > q)
  {
    hide Walk, Extra, CopyWindow, LengthExtra, LengthBase, DistExtra, DistBase;
    var w := Walk(c.tl, 0, c.bl, bits, pos);
    if w.Symbol? && 257 <= w.symbol < 257 + LENGTH_CODES && LengthExtra(w.symbol - 257) != INVALID {
      LengthLimits(w.symbol - 257);
    }
  }

  /**
   * inflate_fast: symbol after symbol, until the block ends or fewer than 258 octets of room or
   * ten octets of input remain.
   */
  method InflateFast(c: Codes, input: seq<byte>, r0: Reader, window0: seq<byte>, q0: nat, m0: nat,
                     ghost bits: seq<bool>)
    returns (r: Reader, window: seq<byte>, q: nat, status: Status, count: nat)
    requires CodesOk(c) && bits == Stream(input) && ReaderOk(r0, bits) && 0 <= Pos(r0)
    requires m0 >= MAX_MATCH && q0 + m0 <= |window0| && r0.p + 10 <= |input|
    requires Valid(c, bits, Out(window0, q0, Pos(r0), More))
    ensures ReaderOk(r, bits) && r.k < 8 && 0 <= Pos(r)
    ensures Reaches(c, bits, Out(window0, q0, Pos(r0), More), count, Out(window, q, Pos(r), status))
    ensures status == More ==> m0 - (q - q0) < MAX_MATCH || |bits| - Pos(r) < 80 + WORD_BITS
  {
    hide ReaderOk, CodesOk, Stream, One, Valid, Fed;
    ghost var start := Out(window0, q0, Pos(r0), More);
    r, window, q, status, count := r0, window0, q0, More, 0;
    var m: int := m0;
    NothingFed(c, bits, start);
    while true
      invariant ReaderOk(r, bits) && 0 <= Pos(r) && status == More && r.p + 10 <= |input|
      invariant Out(window, q, Pos(r), status) == Run(c, bits, start, count) && Fed(c, bits, start, count)
      invariant m >= MAX_MATCH && q + m <= |window| && m == m0 - (q - q0)
      decreases m
    {
      AheadOf(r, input, bits);
      ValidAt(c, bits, start, count);
      RunOn(c, bits, start, count);
      MoreFed(c, bits, start, count);
      MoreWrites(c, bits, window, q, Pos(r));
      var q1 := q;
      r, window, q, status := FastOne(c, input, r, window, q, bits);
      count := count + 1;
      m := m - (q - q1);
      if status != More || m < MAX_MATCH || |input| - r.p < 10 {
        break;
      }
    }
    AheadOf(r, input, bits);
    r := Ungrab(r, bits);
  }

  // One symbol of inflate_codes, state by state.

  datatype Mode =
    | Len
    | LenExt(get: nat, len: nat)
    | Dist(len: nat)
    | DistExt(get: nat, dist: nat, len: nat)
    | Copy(dist: nat, len: nat)
    | Lit(lit: nat)
    | Start(status: Status)

  /** What the rest of the symbol will do, from each state. */
  function Rest(c: Codes, bits: seq<bool>, mode: Mode, window: seq<byte>, q: nat, pos: nat): Out {
    match mode
    case Len => One(c, bits, window, q, pos)
    case LenExt(get, len) =>
      if pos + get <= |bits| then AfterLength(c, bits, window, q, pos + get, len + Extra(bits, pos, get))
      else Out(window, q, pos, Unspecified)
    case Dist(len) => AfterLength(c, bits, window, q, pos, len)
    case DistExt(get, dist, len) =>
      if pos + get <= |bits| then AfterCopy(window, q, pos + get, len, dist + Extra(bits, pos, get))
      else Out(window, q, pos, Unspecified)
    case Copy(dist, len) => AfterCopy(window, q, pos, len, dist)
    case Lit(lit) =>
      if q < |window| && lit < 256 then Out(window[q := lit], q + 1, pos, More) else Out(window, q, pos, Unspecified)
    case Start(status) => Out(window, q, pos, status)
  }

  /** How many bits a state may still ask for. */
  function Asks(mode: Mode): nat {
    match mode
    case Len => MAX_ASKED
    case LenExt(get, _) => 33
    case Dist(_) => 28
    case DistExt(get, _, _) => 13
    case _ => 0
  }

  function Stage(mode: Mode): nat {
    match mode
    case Len => 5 case LenExt(_, _) => 4 case Dist(_) => 3
    case DistExt(_, _, _) => 2 case Copy(_, _) => 1 case Lit(_) => 1
    case Start(_) => 0
  }

  predicate ModeOk(mode: Mode) {
    (mode.LenExt? ==> mode.get <= 5) && (mode.DistExt? ==> mode.get <= 13)
  }

  /** On the way to a distance there is a tree for it. */
  ghost predicate TreeFor(c: Codes, mode: Mode) {
    mode.LenExt? || mode.Dist? ==> Sound(c.td, c.bd) && Neat(c.td, c.bd)
  }

  /** The walk of the LEN and DIST states: for every table the bits that index it are fetched. */
  method SlowWalk(t: Tables, need0: nat, input: seq<byte>, r0: Reader, ghost bits: seq<bool>)
    returns (w: Result, r: Reader)
    requires Sound(t, need0) && Neat(t, need0) && Ahead(r0, bits, MAX_CODE) && bits == Stream(input)
    ensures w == Walk(t, 0, need0, bits, Pos(r0)) && w != Stuck
    ensures ReaderOk(r, bits) && Pos(r) == w.used <= Pos(r0) + MAX_CODE
  {
    hide Walk, Pow2, Sound, Num, ReaderOk, Walking, NeatEntry, Stream;
    r := r0;
    ghost var s, at: nat := bits[Pos(r0)..Pos(r0) + MAX_CODE], 0;
    SoundAt(t, need0, bits, Pos(r0));
    ghost var goal := Walk(t, 0, need0, s, 0);
    var id, need := 0, need0;
    BeginWalk(t, need0, s);
    var x: Entry;
    while true
      invariant ReaderOk(r, bits) && Pos(r) == Pos(r0) + at
      invariant id < |t| && |t[id]| == Pow2(need) && at + need <= MAX_CODE && Walking(t, id, need, s, at, goal)
      decreases |t| - id
    {
      r := Grab(r, input, need, bits);
      x, r := Look(t, id, need, r, bits, s, at, goal);
      at := at + x.bits;
      if !x.Link? {
        break;
      }
      id, need := x.next, x.need;
    }
    w := if x.Leaf? then Symbol(x.symbol, Pos(r)) else BadCode(Pos(r));
  }

  /** One state: what is left to do afterwards comes to the same. */
  method SlowState(c: Codes, input: seq<byte>, mode: Mode, r0: Reader, window0: seq<byte>, q0: nat,
                   ghost bits: seq<bool>)
    returns (next: Mode, r: Reader, window: seq<byte>, q: nat)
    requires CodesOk(c) && bits == Stream(input) && Ahead(r0, bits, Asks(mode)) && ModeOk(mode) && !mode.Start?
    requires TreeFor(c, mode) && Rest(c, bits, mode, window0, q0, Pos(r0)).status != Unspecified
    ensures Ahead(r, bits, Asks(next)) && ModeOk(next) && TreeFor(c, next) && Stage(next) < Stage(mode)
    ensures Rest(c, bits, next, window, q, Pos(r)) == Rest(c, bits, mode, window0, q0, Pos(r0))
  {
    hide ReaderOk, Walk, Sound, Neat, HasLengths, Stream, Extra, DistExtra, DistBase, CopyWindow, LenNext;
    hide AfterLenCode, AfterDistCode;
    window, q := window0, q0;
    match mode
    case Len =>
      var w: Result;
      w, r := SlowWalk(c.tl, c.bl, input, r0, bits);
      LenNextRest(c, bits, w, window, q);
      next := AfterLenWalk(w);
      if next.LenExt? {
        MetLength(c, bits, Pos(r0));
      }
    case LenExt(get, len) =>
      r := Grab(r0, input, get, bits);
      var extra: nat;
      extra, r := Take(r, get, bits);
      next := Dist(len + extra);
    case Dist(len) =>
      var w: Result;
      w, r := SlowWalk(c.td, c.bd, input, r0, bits);
      DistNextRest(c, bits, w, window, q, len);
      if w.BadCode? {
        next := Start(DataError);
      } else {
        next := DistExt(DistExtra(w.symbol), DistBase(w.symbol), len);
      }
    case DistExt(get, dist, len) =>
      r := Grab(r0, input, get, bits);
      var extra: nat;
      extra, r := Take(r, get, bits);
      next := Copy(dist + extra, len);
    case Copy(dist, len) =>
      r := r0;
      window, q := SlowCopy(window, q, dist, len);
      next := Start(More);
    case Lit(lit) =>
      r := r0;
      window := window[q := lit];
      q := q + 1;
      next := Start(More);
  }

  /** The state after the literal or length code has been read. */
  method AfterLenWalk(w: Result) returns (next: Mode)
    requires w != Stuck && (w.Symbol? ==> w.symbol < 257 + LENGTH_CODES)
    ensures ModeOk(next) && Stage(next) < 5 && Asks(next) <= 33 && !next.Dist?
    ensures next == LenNext(w) && (next.LenExt? ==> w.Symbol? && w.symbol > END_BLOCK)
  {
    hide LengthExtra, LengthBase;
    if w.BadCode? {
      next := Start(DataError);
    } else if w.symbol < LITERALS {
      next := Lit(w.symbol);
    } else if w.symbol == END_BLOCK {
      next := Start(EndOfBlock);
    } else if LengthExtra(w.symbol - 257) == INVALID {
      next := Start(DataError);
    } else {
      LengthLimits(w.symbol - 257);
      next := LenExt(LengthExtra(w.symbol - 257), LengthBase(w.symbol - 257));
    }
  }

  function LenNext(w: Result): Mode
    requires w.Symbol? ==> w.symbol < 257 + LENGTH_CODES
  {
    if !w.Symbol? then Start(DataError)
    else if w.symbol < LITERALS then Lit(w.symbol)
    else if w.symbol == END_BLOCK then Start(EndOfBlock)
    else if LengthExtra(w.symbol - 257) == INVALID then Start(DataError)
    else LenExt(LengthExtra(w.symbol - 257), LengthBase(w.symbol - 257))
  }

  lemma LenNextRest(c: Codes, bits: seq<bool>, w: Result, window: seq<byte>, q: nat)
    requires w != Stuck && AfterLenCode(c, bits, window, q, w).status != Unspecified
    ensures w.Symbol? ==> w.symbol < 257 + LENGTH_CODES
    ensures Rest(c, bits, LenNext(w), window, q, w.used) == AfterLenCode(c, bits, window, q, w)
  {
    hide Walk, Extra, LengthExtra, LengthBase, AfterLength;
  }

  lemma DistNextRest(c: Codes, bits: seq<bool>, w: Result, window: seq<byte>, q: nat, len: nat)
    requires w != Stuck && AfterDistCode(bits, window, q, len, w).status != Unspecified
    ensures w.Symbol? ==> w.symbol < DIST_CODES && DistExtra(w.symbol) <= 13
    ensures Rest(c, bits, if w.Symbol? then DistExt(DistExtra(w.symbol), DistBase(w.symbol), len) else Start(DataError),
                 window, q, w.used) == AfterDistCode(bits, window, q, len, w)
  {
    hide Walk, Extra, DistExtra, DistBase, AfterCopy;
    if w.Symbol? {
      DistanceLimits(w.symbol);
    }
  }

  method SlowOne(c: Codes, input: seq<byte>, r0: Reader, window0: seq<byte>, q0: nat, ghost bits: seq<bool>)
    returns (r: Reader, window: seq<byte>, q: nat, status: Status)
    requires CodesOk(c) && bits == Stream(input) && Ahead(r0, bits, MAX_ASKED)
    requires One(c, bits, window0, q0, Pos(r0)).status != Unspecified
    ensures Ahead(r, bits, 0) && Out(window, q, Pos(r), status) == One(c, bits, window0, q0, Pos(r0))
  {
    hide CodesOk, Stream, One, ReaderOk, AfterLength, AfterCopy;
    r, window, q := r0, window0, q0;
    var mode: Mode := Len;
    while !mode.Start?
      invariant Ahead(r, bits, Asks(mode)) && ModeOk(mode) && TreeFor(c, mode)
      invariant Rest(c, bits, mode, window, q, Pos(r)) == One(c, bits, window0, q0, Pos(r0))
      decreases Stage(mode)
    {
      mode, r, window, q := SlowState(c, input, mode, r, window, q, bits);
    }
    status := mode.status;
  }

  /** inflate_codes for count symbols. */
  method SlowRun(c: Codes, input: seq<byte>, r0: Reader, window0: seq<byte>, q0: nat, count: nat, ghost bits: seq<bool>)
    returns (r: Reader, window: seq<byte>, q: nat, status: Status)
    requires CodesOk(c) && bits == Stream(input) && Ahead(r0, bits, 0)
    requires Valid(c, bits, Out(window0, q0, Pos(r0), More)) && Fed(c, bits, Out(window0, q0, Pos(r0), More), count)
    ensures Ahead(r, bits, 0) && Out(window, q, Pos(r), status) == Run(c, bits, Out(window0, q0, Pos(r0), More), count)
  {
    hide CodesOk, Stream, One, ReaderOk, Valid, Fed;
    ghost var start := Out(window0, q0, Pos(r0), More);
    r, window, q, status := r0, window0, q0, More;
    var k := 0;
    while k < count
      invariant 0 <= k <= count && Ahead(r, bits, 0)
      invariant Out(window, q, Pos(r), status) == Run(c, bits, start, k)
    {
      FedAt(c, bits, start, count, k);
      ValidAt(c, bits, start, k);
      RunOn(c, bits, start, k);
      r, window, q, status := SlowOne(c, input, r, window, q, bits);
      k := k + 1;
    }
  }

  lemma FedAt(c: Codes, bits: seq<bool>, o: Out, count: nat, k: nat)
    requires Fed(c, bits, o, count) && k < count
    ensures Ready(bits, Run(c, bits, o, k))
  {
  }

  /** The fast loop and the states, from the same place: the same window, write position, bits consumed and verdict. */
  method FastIsSlow(c: Codes, input: seq<byte>, r0: Reader, window0: seq<byte>, q0: nat, m0: nat, ghost bits: seq<bool>)
    returns (fast: Out, slow: Out, count: nat)
    requires CodesOk(c) && bits == Stream(input) && ReaderOk(r0, bits) && 0 <= Pos(r0)
    requires m0 >= MAX_MATCH && q0 + m0 <= |window0| && r0.p + 10 <= |input|
    requires Valid(c, bits, Out(window0, q0, Pos(r0), More))
    ensures fast == slow && Reaches(c, bits, Out(window0, q0, Pos(r0), More), count, fast)
  {
    hide CodesOk, Stream, One, ReaderOk, Valid, Fed;
    var r, window, q, status;
    r, window, q, status, count := InflateFast(c, input, r0, window0, q0, m0, bits);
    fast := Out(window, q, 8 * r.p - r.k, status);
    r, window, q, status := SlowRun(c, input, r0, window0, q0, count, bits);
    slow := Out(window, q, 8 * r.p - r.k, status);
  }

  /** The tables huft_build makes are of the kind both decoders need. */
  lemma BuiltSound(b: seq<nat>, t: Tables, l: nat)
    requires HuffmanCodes.LensOk(b) && HuffmanCodes.Fits(HuffmanCodes.Counts(b)) && HuftDecode.Inverts(b, t, l)
    ensures Sound(t, l)
  {
  }
}
