/** Bit strings, most significant bit first, and the numbers and octets they denote. */
module Bits {

  type byte = x: nat | x < 256

  function Pow2(n: nat): (r: nat)
    ensures r >= 1
  {
    if n == 0 then 1 else 2 * Pow2(n - 1)
  }

  lemma {:induction false} Pow2Add(a: nat, b: nat)
    ensures Pow2(a + b) == Pow2(a) * Pow2(b)
  {
    if b == 0 {
    } else {
      Pow2Add(a, b - 1);
    }
  }

  lemma {:induction false} Pow2Monotonic(a: nat, b: nat)
    requires a <= b
    ensures Pow2(a) <= Pow2(b)
  {
    if a < b {
      Pow2Monotonic(a, b - 1);
    }
  }

  /** The number a bit string denotes. */
  function Val(bits: seq<bool>): (v: nat)
  {
    if |bits| == 0 then 0
    else 2 * Val(bits[..|bits| - 1]) + if bits[|bits| - 1] then 1 else 0
  }

  /** The w-bit string that denotes v. */
  function ToBits(v: nat, w: nat): (bits: seq<bool>)
    requires v < Pow2(w)
    ensures |bits| == w && Val(bits) == v
  {
    if w == 0 then [] else ToBits(v / 2, w - 1) + [v % 2 == 1]
  }

  lemma {:induction false} ValBound(bits: seq<bool>)
    ensures Val(bits) < Pow2(|bits|)
  {
    if |bits| > 0 {
      ValBound(bits[..|bits| - 1]);
    }
  }

  lemma Double(x: nat, y: nat)
    ensures 2 * (x * y) == x * (2 * y)
  {
  }

  lemma {:induction false} ValConcat(a: seq<bool>, b: seq<bool>)
    ensures Val(a + b) == Val(a) * Pow2(|b|) + Val(b)
  {
    if |b| == 0 {
      assert a + b == a;
    } else {
      var b' := b[..|b| - 1];
      var x := if b[|b| - 1] then 1 else 0;
      calc {
        Val(a + b);
        { assert (a + b)[..|a + b| - 1] == a + b'; }
        2 * Val(a + b') + x;
        { ValConcat(a, b'); }
        2 * (Val(a) * Pow2(|b'|) + Val(b')) + x;
        { Double(Val(a), Pow2(|b'|)); }
        Val(a) * Pow2(|b|) + Val(b);
      }
    }
  }

  /** Equally long bit strings that denote the same number are equal. */
  lemma {:induction false} ValInjective(a: seq<bool>, b: seq<bool>)
    requires |a| == |b| && Val(a) == Val(b)
    ensures a == b
  {
    if |a| > 0 {
      var a', b' := a[..|a| - 1], b[..|b| - 1];
      assert Val(a') == Val(a) / 2 && Val(b') == Val(b) / 2;
      ValInjective(a', b');
      assert a == a' + [a[|a| - 1]] && b == b' + [b[|b| - 1]];
    }
  }

  function OctetBits(b: byte): (bits: seq<bool>)
    ensures |bits| == 8 && Val(bits) == b
  {
    assert Pow2(8) == 256;
    ToBits(b, 8)
  }

  /** The bits of an octet string. */
  function Unpack(bytes: seq<byte>): (bits: seq<bool>)
    ensures |bits| == 8 * |bytes|
  {
    if |bytes| == 0 then [] else Unpack(bytes[..|bytes| - 1]) + OctetBits(bytes[|bytes| - 1])
  }

  lemma {:induction false} UnpackConcat(a: seq<byte>, b: seq<byte>)
    ensures Unpack(a + b) == Unpack(a) + Unpack(b)
  {
    if |b| == 0 {
      assert a + b == a;
    } else {
      assert (a + b)[..|a + b| - 1] == a + b[..|b| - 1];
      UnpackConcat(a, b[..|b| - 1]);
    }
  }

  lemma UnpackLast(a: seq<byte>, n: nat)
    requires |a| == n + 1
    ensures Unpack(a)[..8 * n] == Unpack(a[..n])
    ensures Unpack(a)[8 * n..] == OctetBits(a[n])
  {
    hide OctetBits;
  }

  lemma OctetInjective(x: byte, y: byte)
    requires OctetBits(x) == OctetBits(y)
    ensures x == y
  {
    hide ToBits, Val, Pow2;
  }

  lemma {:induction false} UnpackInjective(a: seq<byte>, b: seq<byte>)
    requires Unpack(a) == Unpack(b)
    ensures a == b
  {
    hide Unpack, OctetBits;
    assert |a| == |b|;
    if |a| > 0 {
      var n := |a| - 1;
      UnpackLast(a, n);
      UnpackLast(b, n);
      UnpackInjective(a[..n], b[..n]);
      OctetInjective(a[n], b[n]);
      assert a == a[..n] + [a[n]] && b == b[..n] + [b[n]];
    }
  }

  /** The octet with these bits. */
  function PackOctet(bits: seq<bool>): (b: byte)
    requires |bits| == 8
    ensures OctetBits(b) == bits
  {
    ValBound(bits);
    assert Pow2(8) == 256;
    ValInjective(OctetBits(Val(bits)), bits);
    Val(bits)
  }

  /** The octets whose bits are `bits`. */
  function Pack(bits: seq<bool>): (bytes: seq<byte>)
    requires |bits| % 8 == 0
  {
    if |bits| == 0 then [] else Pack(bits[..|bits| - 8]) + [PackOctet(bits[|bits| - 8..])]
  }

  lemma UnpackNext(bytes: seq<byte>, x: byte)
    ensures Unpack(bytes + [x]) == Unpack(bytes) + OctetBits(x)
  {
    hide OctetBits;
    assert (bytes + [x])[..|bytes|] == bytes;
  }

  lemma {:induction false} UnpackPack(bits: seq<bool>)
    requires |bits| % 8 == 0
    ensures Unpack(Pack(bits)) == bits
  {
    hide Unpack, OctetBits, PackOctet;
    if |bits| == 0 {
      NoOctets();
    } else {
      var init, last := bits[..|bits| - 8], bits[|bits| - 8..];
      UnpackPack(init);
      UnpackNext(Pack(init), PackOctet(last));
      assert bits == init + last;
    }
  }

  lemma NoOctets()
    ensures Unpack([]) == []
  {
  }

  /** The bits, filled up to whole octets with ones. */
  function PadOnes(bits: seq<bool>): (r: seq<bool>)
    ensures |r| % 8 == 0 && bits <= r && |r| < |bits| + 8
  {
    bits + seq((8 - |bits| % 8) % 8, i => true)
  }
}

/** The conventional optional value. */
module Wrappers {
  datatype Option<+T> = None | Some(value: T)
}
