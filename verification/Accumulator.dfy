/**
 The 32-bit accumulator through which BSD-Compress packs codes into octets and
 unpacks them again: the pending bits stand at the top of the word, above
 `bitno` zero bits.
 */
module Accumulator {
  import opened Arith
  import opened Bits

  const WORD := 0x1_0000_0000

  ghost predicate Holds(accm: nat, bitno: nat, pending: seq<bool>)
  {
    bitno <= 32 && |pending| == 32 - bitno && accm == Val(pending) * Pow2(bitno)
  }

  lemma WordIsPow2()
    ensures Pow2(32) == WORD && Pow2(24) == 0x100_0000 && Pow2(8) == 256
  {
    assert Pow2(8) == 256;
    Pow2Add(8, 8);
    Pow2Add(16, 8);
    Pow2Add(24, 8);
  }

  lemma Fits(accm: nat, bitno: nat, pending: seq<bool>)
    requires Holds(accm, bitno, pending)
    ensures accm < WORD
  {
    hide Pow2, Val;
    WordIsPow2();
    ValBound(pending);
    Pow2Add(32 - bitno, bitno);
    MulLess(Val(pending), Pow2(32 - bitno), Pow2(bitno));
  }

  lemma Regroup(x: nat, y: nat, z: nat, v: nat)
    ensures (x * y + v) * z == x * (y * z) + v * z
  {
  }

  /**
   accm | (v << bitno), when the low `bitno` bits above the shift are clear: the
   operands have no bit in common, so the or is a sum.
   */
  function ShiftIn(accm: nat, v: nat, bitno: nat, n: nat): nat
    requires accm % Pow2(bitno + n) == 0 && v < Pow2(n)
  {
    accm + v * Pow2(bitno)
  }

  lemma Push(accm: nat, bitno: nat, pending: seq<bool>, bits: seq<bool>)
    requires Holds(accm, bitno, pending) && |bits| <= bitno
    ensures accm % Pow2(bitno) == 0 && Val(bits) < Pow2(|bits|)
    ensures Holds(ShiftIn(accm, Val(bits), bitno - |bits|, |bits|), bitno - |bits|, pending + bits)
  {
    hide Pow2, Val;
    Multiple(accm, Val(pending), Pow2(bitno));
    ValBound(bits);
    ValConcat(pending, bits);
    Pow2Add(|bits|, bitno - |bits|);
    Regroup(Val(pending), Pow2(|bits|), Pow2(bitno - |bits|), Val(bits));
  }

  /** Taking the top n bits out: accm >> (32 - n), then accm << n in 32 bits. */
  lemma Pop(accm: nat, bitno: nat, pending: seq<bool>, n: nat)
    requires Holds(accm, bitno, pending) && n <= |pending|
    ensures accm / Pow2(32 - n) == Val(pending[..n])
    ensures Holds((accm * Pow2(n)) % WORD, bitno + n, pending[n..])
  {
    hide Pow2, Val;
    var top, rest := pending[..n], pending[n..];
    var low := Val(rest) * Pow2(bitno);
    assert pending == top + rest;
    ValConcat(top, rest);
    Pow2Add(|rest|, bitno);
    Regroup(Val(top), Pow2(|rest|), Pow2(bitno), Val(rest));
    assert accm == Val(top) * Pow2(32 - n) + low;
    ValBound(rest);
    MulLess(Val(rest), Pow2(|rest|), Pow2(bitno));
    DivMod(accm, Val(top), low, Pow2(32 - n));
    PopShift(accm, Val(top), low, n);
    Pow2Add(bitno, n);
    Associate(Val(rest), Pow2(bitno), Pow2(n));
  }

  lemma PopShift(accm: nat, top: nat, low: nat, n: nat)
    requires n <= 32 && accm == top * Pow2(32 - n) + low && low < Pow2(32 - n)
    ensures (accm * Pow2(n)) % WORD == low * Pow2(n)
  {
    hide Pow2, Val;
    WordIsPow2();
    Pow2Add(32 - n, n);
    Regroup(top, Pow2(32 - n), Pow2(n), low);
    MulLess(low, Pow2(32 - n), Pow2(n));
    DivMod(accm * Pow2(n), top, low * Pow2(n), WORD);
  }
}
