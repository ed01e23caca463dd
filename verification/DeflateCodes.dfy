/**
 * The output side of deflate: which code and extra bits stand for a length or distance, the bit
 * buffer they are sent through, and the body of a compressed block.
 */
module DeflateCodes {
  import opened Bits
  import opened BitOrder
  import opened InflateSpec
  import opened Lz77Spec

  const LENGTHS: nat := 29
  const DISTANCES: nat := 30
  const MAX_DIST: nat := 0x8000

  // The mappings tr_static_init makes.

  /** The code of each normalized length and distance, and the number each code starts from. */
  datatype Maps = Maps(lengthCode: seq<nat>, baseLength: seq<nat>, distCode: seq<nat>, baseDist: seq<nat>)

  /** Code c, which starts from b, and some number of its extra bits stand for the length lc + 3. */
  predicate LengthIs(b: nat, c: nat, lc: nat) {
    && c < LENGTHS
    && (if LengthExtra(c) == 0 then lc + MIN_MATCH == LengthBase(c)
        else b + MIN_MATCH == LengthBase(c) && b <= lc < b + Pow2(LengthExtra(c)))
  }

  /** Likewise for the distance d + 1. */
  predicate DistIs(b: nat, c: nat, d: nat) {
    c < DISTANCES && b + 1 == DistBase(c) && b <= d < b + Pow2(DistExtra(c))
  }

  /** d_code */
  function DCode(distCode: seq<nat>, d: nat): nat
    requires |distCode| == 512 && d < MAX_DIST
  {
    if d < 256 then distCode[d] else distCode[256 + d / 128]
  }

  predicate MapsOk(m: Maps) {
    && |m.lengthCode| == 256 && |m.baseLength| == LENGTHS && |m.distCode| == 512 && |m.baseDist| == DISTANCES
    && (forall lc :: 0 <= lc < 256 ==> LengthAt(m, lc))
    && (forall d :: 0 <= d < MAX_DIST ==> DistAt(m, d))
  }

  predicate LengthAt(m: Maps, lc: nat)
    requires |m.lengthCode| == 256 && |m.baseLength| == LENGTHS && lc < 256
  {
    var c := m.lengthCode[lc];
    c < LENGTHS && LengthIs(m.baseLength[c], c, lc)
  }

  predicate DistAt(m: Maps, d: nat)
    requires |m.distCode| == 512 && |m.baseDist| == DISTANCES && d < MAX_DIST
  {
    var c := DCode(m.distCode, d);
    c < DISTANCES && DistIs(m.baseDist[c], c, d)
  }

  lemma SmallPowers()
    ensures Pow2(0) == 1 && Pow2(1) == 2 && Pow2(2) == 4 && Pow2(3) == 8 && Pow2(4) == 16 && Pow2(5) == 32
    ensures Pow2(6) == 64
  {
  }

  predicate LengthStep(c: nat)
    requires c < 28
  {
    && LengthBase(c) >= MIN_MATCH && LengthExtra(c) <= 5
    && LengthBase(c) + Pow2(LengthExtra(c)) == if c == 27 then 259 else LengthBase(c + 1)
  }

  lemma ShortSteps(c: nat)
    requires c < 8
    ensures LengthStep(c)
  {
    hide Pow2;
    SmallPowers();
    assert LengthExtra(c) == 0 && LengthBase(c) == c + 3 && LengthBase(c + 1) == c + 4;
  }

  lemma MiddleSteps(c: nat)
    requires 8 <= c < 18
    ensures LengthStep(c)
  {
    hide Pow2;
    SmallPowers();
  }

  lemma LongSteps(c: nat)
    requires 18 <= c < 28
    ensures LengthStep(c)
  {
    hide Pow2;
    SmallPowers();
  }

  lemma LengthNext(c: nat)
    requires c < 28
    ensures LengthBase(c) >= MIN_MATCH && LengthExtra(c) <= 5
    ensures LengthBase(c) + Pow2(LengthExtra(c)) == if c == 27 then 259 else LengthBase(c + 1)
  {
    if c < 8 {
      ShortSteps(c);
    } else if c < 18 {
      MiddleSteps(c);
    } else {
      LongSteps(c);
    }
    hide LengthBase, LengthExtra, Pow2;
  }

  /** How many extra bits each code has, as the tables of section 3.2.5 of RFC 1951 list them. */
  lemma ExtraBitsAre(c: nat)
    ensures c < 28 ==> LengthExtra(c) == if c < 8 then 0 else (c - 4) / 4
    ensures c < 30 ==> DistExtra(c) == if c < 4 then 0 else (c - 2) / 2
  {
  }

  lemma DistNext(c: nat)
    requires c < 16
    ensures DistBase(c) >= 1 && DistExtra(c) <= 6 && DistBase(c) + Pow2(DistExtra(c)) == DistBase(c + 1)
    ensures DistBase(16) == 257
  {
    hide Pow2;
    SmallPowers();
  }

  lemma FarNext(c: nat)
    requires 16 <= c < DISTANCES
    ensures 7 <= DistExtra(c) <= 13 && (DistBase(c) - 1) % 128 == 0
    ensures (DistBase(c) - 1) / 128 + Pow2(DistExtra(c) - 7)
         == if c == 29 then 256 else (DistBase(c + 1) - 1) / 128
  {
    hide Pow2;
    SmallPowers();
  }

  /** The first part of tr_static_init. */
  method InitLengths() returns (lengthCode: seq<nat>, baseLength: seq<nat>)
    ensures |lengthCode| == 256 && |baseLength| == LENGTHS
    ensures forall lc :: 0 <= lc < 256 ==>
      lengthCode[lc] < LENGTHS && LengthIs(baseLength[lengthCode[lc]], lengthCode[lc], lc)
  {
    hide LengthBase, LengthExtra, Pow2;
    var codes, base := new nat[256](_ => 0), new nat[LENGTHS](_ => 0);
    var length, code := 0, 0;
    FirstBases();
    while code < LENGTHS - 1
      invariant 0 <= code <= 28 && length + MIN_MATCH == if code == 28 then 259 else LengthBase(code)
      invariant length <= 256
      invariant forall i :: 0 <= i < length ==> codes[i] < code && LengthIs(base[codes[i]], codes[i], i)
    {
      LengthNext(code);
      LengthsRise(code);
      base[code] := length;
      var n := 0;
      while n < Pow2(LengthExtra(code))
        invariant 0 <= n <= Pow2(LengthExtra(code)) && length == base[code] + n
        invariant base[code] + MIN_MATCH == LengthBase(code)
        invariant forall i :: 0 <= i < length ==> codes[i] <= code && LengthIs(base[codes[i]], codes[i], i)
      {
        FirstOfMany(code, n);
        codes[length] := code;
        length := length + 1;
        n := n + 1;
      }
      code := code + 1;
    }
    codes[length - 1] := code;
    return codes[..], base[..];
  }

  lemma FirstBases()
    ensures LengthBase(0) == 3 && LengthBase(28) == 258 && LengthExtra(28) == 0
    ensures DistBase(0) == 1 && DistBase(16) == 257
  {
  }

  /** Before the last code nothing reaches beyond the normalized length 255. */
  lemma LengthsRise(c: nat)
    requires c < 28
    ensures LengthBase(c) + Pow2(LengthExtra(c)) <= 259
  {
    LengthNext(c);
    hide Pow2;
  }

  lemma FirstOfMany(c: nat, n: nat)
    requires c < 28 && n < Pow2(LengthExtra(c))
    ensures LengthExtra(c) == 0 ==> n == 0
  {
  }

  /** Code c is for the distances whose top bits are e. */
  predicate FarIs(b: nat, c: nat, e: nat) {
    && 16 <= c < DISTANCES && b + 1 == DistBase(c) && 7 <= DistExtra(c) && b % 128 == 0
    && b / 128 <= e < b / 128 + Pow2(DistExtra(c) - 7)
  }

  lemma FarMeans(b: nat, c: nat, d: nat)
    requires FarIs(b, c, d / 128)
    ensures DistIs(b, c, d)
  {
    hide DistBase, DistExtra;
    Pow2Add(7, DistExtra(c) - 7);
    assert Pow2(7) == 128;
    hide Pow2;
    var p := Pow2(DistExtra(c) - 7);
    assert d < 128 * (d / 128 + 1) <= 128 * (b / 128 + p) == b + 128 * p;
  }

  /** The second part of tr_static_init. */
  method InitDistances() returns (distCode: seq<nat>, baseDist: seq<nat>)
    ensures |distCode| == 512 && |baseDist| == DISTANCES
    ensures forall d :: 0 <= d < MAX_DIST ==>
      var c := DCode(distCode, d); c < DISTANCES && DistIs(baseDist[c], c, d)
  {
    hide DistBase, DistExtra, Pow2, DistIs, FarIs;
    var codes, base := new nat[512](_ => 0), new nat[DISTANCES](_ => 0);
    FirstBases();
    var dist, code := 0, 0;
    while code < 16
      invariant 0 <= code <= 16 && dist + 1 == DistBase(code) && dist <= 256
      invariant forall i :: 0 <= i < dist ==> codes[i] < code && DistIs(base[codes[i]], codes[i], i)
    {
      DistNext(code);
      DistsRise(code);
      base[code] := dist;
      var n := 0;
      while n < Pow2(DistExtra(code))
        invariant 0 <= n <= Pow2(DistExtra(code)) && dist == base[code] + n && base[code] + 1 == DistBase(code)
        invariant forall i :: 0 <= i < dist ==> codes[i] <= code && DistIs(base[codes[i]], codes[i], i)
      {
        NearIs(base[code], code, dist);
        codes[dist] := code;
        dist := dist + 1;
        n := n + 1;
      }
      code := code + 1;
    }
    dist := InitFar(codes, base, dist / 128);
    distCode, baseDist := codes[..], base[..];
    forall d | 0 <= d < MAX_DIST
      ensures var c := DCode(distCode, d); c < DISTANCES && DistIs(baseDist[c], c, d)
    {
      if d >= 256 {
        assert 2 <= d / 128 < 256;
        FarMeans(base[codes[256 + d / 128]], codes[256 + d / 128], d);
      }
    }
  }

  /** From now on, all distances are divided by 128. */
  method InitFar(codes: array<nat>, base: array<nat>, dist0: nat) returns (dist: nat)
    requires codes.Length == 512 && base.Length == DISTANCES && codes != base && dist0 == 2
    requires forall i :: 0 <= i < 256 ==> codes[i] < 16 && DistIs(base[codes[i]], codes[i], i)
    modifies codes, base
    ensures forall i :: 0 <= i < 256 ==> codes[i] < 16 && DistIs(base[codes[i]], codes[i], i)
    ensures forall i :: 258 <= i < 512 ==> codes[i] < DISTANCES && FarIs(base[codes[i]], codes[i], i - 256)
  {
    hide DistBase, DistExtra, Pow2, DistIs, FarIs;
    FirstBases();
    dist := dist0;
    var code := 16;
    while code < DISTANCES
      invariant 16 <= code <= 30 && 2 <= dist == if code == 30 then 256 else (DistBase(code) - 1) / 128
      invariant forall i :: 0 <= i < 256 ==> codes[i] < 16 && DistIs(base[codes[i]], codes[i], i)
      invariant dist <= 256
      invariant forall i :: 258 <= i < 256 + dist ==> codes[i] < code && FarIs(base[codes[i]], codes[i], i - 256)
    {
      FarNext(code);
      FarRises(code);
      base[code] := dist * 128;
      var n := 0;
      while n < Pow2(DistExtra(code) - 7)
        invariant 0 <= n <= Pow2(DistExtra(code) - 7) && 2 <= dist == base[code] / 128 + n
        invariant base[code] + 1 == DistBase(code)
        invariant forall i :: 0 <= i < 256 ==> codes[i] < 16 && DistIs(base[codes[i]], codes[i], i)
        invariant forall i :: 258 <= i < 256 + dist ==> codes[i] <= code && FarIs(base[codes[i]], codes[i], i - 256)
      {
        IsFar(base[code], code, dist);
        codes[256 + dist] := code;
        dist := dist + 1;
        n := n + 1;
      }
      code := code + 1;
    }
  }

  lemma NearIs(b: nat, c: nat, d: nat)
    requires c < 16 && b + 1 == DistBase(c) && b <= d < b + Pow2(DistExtra(c))
    ensures DistIs(b, c, d)
  {
  }

  lemma IsFar(b: nat, c: nat, e: nat)
    requires 16 <= c < DISTANCES && b + 1 == DistBase(c) && 7 <= DistExtra(c) && b % 128 == 0
    requires b / 128 <= e < b / 128 + Pow2(DistExtra(c) - 7)
    ensures FarIs(b, c, e)
  {
  }

  lemma DistsRise(c: nat)
    requires c < 16
    ensures DistBase(c) + Pow2(DistExtra(c)) <= 257
  {
    DistNext(c);
    hide Pow2;
  }

  lemma FarRises(c: nat)
    requires 16 <= c < DISTANCES
    ensures 7 <= DistExtra(c) && (DistBase(c) - 1) / 128 + Pow2(DistExtra(c) - 7) <= 256
  {
    FarNext(c);
    hide Pow2;
  }

  /** The mappings of tr_static_init. */
  method StaticInit() returns (m: Maps)
    ensures MapsOk(m)
  {
    hide LengthIs, DistIs;
    var lengthCode, baseLength := InitLengths();
    var distCode, baseDist := InitDistances();
    m := Maps(lengthCode, baseLength, distCode, baseDist);
  }

  // The bit buffer.

  lemma LowNum(s: seq<bool>)
    ensures Num(s) < Pow2(|s|) && Low(Num(s), |s|) == s
  {
    hide Num, Pow2, Low;
    NumBound(s);
    NumInjective(Low(Num(s), |s|), s);
  }

  lemma TwoOctets(x: nat)
    requires x < 0x1_0000
    ensures x < Pow2(16) && Octet(x % 256) + Octet(x / 256) == Low(x, 16)
  {
    assert Pow2(8) == 256;
    Pow2Add(8, 8);
    hide Num, Pow2, Low, Octet;
    NumConcat(Octet(x % 256), Octet(x / 256));
    NumInjective(Octet(x % 256) + Octet(x / 256), Low(x, 16));
  }

  lemma StreamMore(a: seq<byte>, x: byte)
    ensures Stream(a + [x]) == Stream(a) + Octet(x)
  {
    assert (a + [x])[..|a|] == a;
  }

  function Quotient(x: nat, p: nat): nat
    requires p > 0
  {
    x / p
  }

  function ShiftRight(x: nat, j: nat): nat { Quotient(x, Pow2(j)) }

  /** What is left of a number when the first j of its bits have gone. */
  lemma LowRest(value: nat, n: nat, j: nat)
    requires value < Pow2(n) && j <= n
    ensures ShiftRight(value, j) < Pow2(n - j) && Low(ShiftRight(value, j), n - j) == Low(value, n)[j..]
  {
    hide Num, Pow2, Low;
    NumSplit(Low(value, n), j);
    LowNum(Low(value, n)[j..]);
  }

  class BitBuffer {
    var biBuf: nat
    var biValid: nat
    var pending: seq<byte>

    ghost predicate Valid()
      reads this
    {
      biValid <= 16 && biBuf < Pow2(biValid)
    }

    /** All bits sent so far. */
    ghost function Sent(): seq<bool>
      requires Valid()
      reads this
    {
      Stream(pending) + Low(biBuf, biValid)
    }

    constructor ()
      ensures Valid() && Sent() == []
    {
      biBuf, biValid, pending := 0, 0, [];
    }

    /** put_short */
    method PutShort(x: nat)
      requires x < 0x1_0000
      modifies this`pending
      ensures x < Pow2(16) && Stream(pending) == Stream(old(pending)) + Low(x, 16)
    {
      hide Stream, Octet, Low, Pow2;
      TwoOctets(x);
      StreamMore(pending, x % 256);
      StreamMore(pending + [x % 256], x / 256);
      pending := pending + [x % 256] + [x / 256];
    }

    /** send_bits, in sixteen-bit arithmetic */
    method SendBits(value: nat, length: nat)
      requires Valid() && length <= 16 && value < Pow2(length)
      modifies this
      ensures Valid() && Sent() == old(Sent()) + Low(value, length)
    {
      hide Stream, Low, Pow2, Num, Or, ShiftRight;
      ghost var s := Low(biBuf, biValid) + Low(value, length);
      OrAbove(biBuf, biValid, value, length);
      LowNum(s);
      var all := Or(biBuf, value * Pow2(biValid));
      if biValid > 16 - length {
        Filled(s, biValid, value, length);
        PutShort(all % 0x1_0000);
        biBuf := ShiftRight(value, 16 - biValid);
        biValid := biValid + length - 16;
      } else {
        biBuf := all;
        biValid := biValid + length;
      }
    }

    /** bi_flush */
    method Flush()
      requires Valid()
      modifies this
      ensures Valid() && Sent() == old(Sent()) && biValid < 8
    {
      hide Stream, Low, Pow2, Num;
      WordSize();
      if biValid == 16 {
        PutShort(biBuf);
        biBuf, biValid := 0, 0;
        NoBits();
      } else if biValid >= 8 {
        FirstOctet(biBuf, biValid);
        StreamMore(pending, biBuf % 256);
        pending := pending + [biBuf % 256];
        biBuf := biBuf / 256;
        biValid := biValid - 8;
      }
    }

    /** bi_windup: the last octet is filled with zeros. */
    method Windup()
      requires Valid()
      modifies this
      ensures Valid() && biValid == 0 && exists n: nat :: n < 8 && Stream(pending) == old(Sent()) + Zeros(n)
    {
      hide Stream, Low, Pow2, Num, Zeros;
      WordSize();
      ghost var n := if biValid > 8 then 16 - biValid else if biValid > 0 then 8 - biValid else 0;
      Padded(biBuf, biValid, biValid + n);
      if biValid > 8 {
        PutShort(biBuf);
      } else if biValid > 0 {
        OneOctet(biBuf);
        StreamMore(pending, biBuf);
        pending := pending + [biBuf];
      } else {
        NoBits();
      }
      assert Stream(pending) == old(Sent()) + Zeros(n);
      biBuf, biValid := 0, 0;
      NoBits();
    }
  }

  lemma WordSize()
    ensures Pow2(16) == 0x1_0000 && Pow2(8) == 256 && Pow2(0) == 1
    ensures forall k :: 0 <= k <= 16 ==> Pow2(k) <= 0x1_0000
    ensures forall k :: 0 <= k <= 8 ==> Pow2(k) <= 256
  {
    assert Pow2(8) == 256;
    Pow2Add(8, 8);
    hide Pow2;
    forall k | 0 <= k <= 16 ensures Pow2(k) <= 0x1_0000 {
      Pow2Monotonic(k, 16);
    }
    forall k | 0 <= k <= 8 ensures Pow2(k) <= 256 {
      Pow2Monotonic(k, 8);
    }
  }

  lemma NoBits()
    ensures Pow2(0) == 1 && Low(0, 0) == []
  {
  }

  /** Sixteen of the bits go out, and the rest of the value stays. */
  lemma Filled(s: seq<bool>, v: nat, value: nat, length: nat)
    requires value < Pow2(length) && v <= 16 < v + length && length <= 16
    requires |s| == v + length && s[v..] == Low(value, length)
    ensures Num(s) % 0x1_0000 < Pow2(16) && Low(Num(s) % 0x1_0000, 16) == s[..16]
    ensures var rest := ShiftRight(value, 16 - v); rest < Pow2(v + length - 16) && Low(rest, v + length - 16) == s[16..]
  {
    hide Num, Pow2, Low, ShiftRight;
    WordSize();
    NumSplit(s, 16);
    LowNum(s[..16]);
    LowRest(value, length, 16 - v);
    assert s[v..][16 - v..] == s[16..];
  }

  lemma FirstOctet(x: nat, v: nat)
    requires x < Pow2(v) && 8 <= v
    ensures x / 256 < Pow2(v - 8) && Low(x, v) == Octet(x % 256) + Low(x / 256, v - 8)
  {
    hide Num, Pow2, Low;
    WordSize();
    LowRest(x, v, 8);
    NumSplit(Low(x, v), 8);
    NumInjective(Low(x, v)[..8], Octet(x % 256));
    assert Low(x, v) == Low(x, v)[..8] + Low(x, v)[8..];
  }

  lemma OneOctet(x: nat)
    requires x < 256
    ensures x < Pow2(8) && Octet(x) == Low(x, 8)
  {
    WordSize();
  }

  lemma Padded(x: nat, v: nat, n: nat)
    requires x < Pow2(v) && v <= n
    ensures x < Pow2(n) && Low(x, n) == Low(x, v) + Zeros(n - v)
  {
    hide Num, Pow2, Low, Zeros;
    Pow2Monotonic(v, n);
    NumPadded(Low(x, v), n - v);
    NumInjective(Low(x, n), Low(x, v) + Zeros(n - v));
  }
}
