/** The Adler-32 checksum: reduction deferred over blocks against reduction at every octet. */
module Adler32 {
  import opened Bits
  import opened Wrappers

  const BASE: nat := 65521
  const NMAX: nat := 5552
  const WORD: nat := 0x1_0000_0000

  datatype Sums = Sums(s1: nat, s2: nat)

  function Add(s: Sums, b: byte): Sums { Sums(s.s1 + b, s.s2 + s.s1 + b) }

  function Reduce(s: Sums): Sums { Sums(s.s1 % BASE, s.s2 % BASE) }

  /** The definition: both sums reduced at every octet. */
  function Run(s: Sums, data: seq<byte>): (r: Sums) {
    if data == [] then s else Reduce(Add(Run(s, data[..|data| - 1]), data[|data| - 1]))
  }

  /** The running sums with no reduction. */
  function Raw(s: Sums, data: seq<byte>): (r: Sums) {
    if data == [] then s else Add(Raw(s, data[..|data| - 1]), data[|data| - 1])
  }

  predicate Reduced(s: Sums) { s.s1 < BASE && s.s2 < BASE }

  function Unpack(adler: nat): Sums { Sums(adler % 0x1_0000, adler / 0x1_0000 % 0x1_0000) }

  function Pack(s: Sums): nat { s.s2 * 0x1_0000 + s.s1 }

  function Of(adler: nat, data: seq<byte>): nat { Pack(Run(Unpack(adler), data)) }

  lemma UnpackPack(s: Sums)
    requires Reduced(s)
    ensures Pack(s) < WORD && Unpack(Pack(s)) == s
  {
  }

  lemma {:induction false} RunReduced(s: Sums, data: seq<byte>)
    requires Reduced(s)
    ensures Reduced(Run(s, data))
  {
  }

  lemma Wrapped(x: nat, y: nat)
    ensures (x + y) % BASE == (x % BASE + y) % BASE
  {
  }

  lemma ReduceAdd(s: Sums, b: byte)
    ensures Reduce(Add(s, b)) == Reduce(Add(Reduce(s), b))
  {
    Wrapped(s.s1, b);
    Wrapped(s.s2, s.s1 + b);
    Wrapped(s.s1, s.s2 % BASE + b);
  }

  /** Reducing once at the end gives what reducing at every octet gives. */
  lemma {:induction false} Deferred(s: Sums, data: seq<byte>)
    requires Reduced(s)
    ensures Reduce(Raw(s, data)) == Run(s, data)
  {
    if data != [] {
      var front, b := data[..|data| - 1], data[|data| - 1];
      Deferred(s, front);
      ReduceAdd(Raw(s, front), b);
    }
  }

  lemma {:induction false} RunConcat(s: Sums, x: seq<byte>, y: seq<byte>)
    ensures Run(s, x + y) == Run(Run(s, x), y)
  {
    if y == [] {
      assert x + y == x;
    } else {
      assert (x + y)[..|x + y| - 1] == x + y[..|y| - 1];
      RunConcat(s, x, y[..|y| - 1]);
    }
  }

  /** The checksum of a concatenation continues from that of the first part. */
  lemma OfConcat(adler: nat, x: seq<byte>, y: seq<byte>)
    requires Reduced(Unpack(adler))
    ensures Of(Of(adler, x), y) == Of(adler, x + y)
  {
    RunConcat(Unpack(adler), x, y);
    RunReduced(Unpack(adler), x);
    UnpackPack(Run(Unpack(adler), x));
  }

  // What a checksum tells about the data.

  /** The octets added up. */
  function Sum(data: seq<byte>): (n: nat) {
    if data == [] then 0 else Sum(data[..|data| - 1]) + data[|data| - 1]
  }

  /** The octets added up, each as often as there are octets from it on. */
  function Weighted(data: seq<byte>): (n: nat) {
    if data == [] then 0 else Weighted(data[..|data| - 1]) + Sum(data)
  }

  lemma {:induction false} RawIs(s: Sums, data: seq<byte>)
    ensures Raw(s, data) == Sums(s.s1 + Sum(data), s.s2 + |data| * s.s1 + Weighted(data))
  {
    if data != [] {
      RawIs(s, data[..|data| - 1]);
      assert |data| * s.s1 == (|data| - 1) * s.s1 + s.s1;
    }
  }

  /** A common summand does not matter modulo the base. */
  lemma Cancel(a: nat, x: nat, y: nat)
    ensures (a + x) % BASE == (a + y) % BASE <==> x % BASE == y % BASE
  {
  }

  /** Two data sums agree modulo the base, plain and weighted. */
  predicate Alike(x: seq<byte>, y: seq<byte>) {
    Sum(x) % BASE == Sum(y) % BASE && Weighted(x) % BASE == Weighted(y) % BASE
  }

  lemma RunSameIff(s: Sums, x: seq<byte>, y: seq<byte>)
    requires Reduced(s) && |x| == |y|
    ensures Run(s, x) == Run(s, y) <==> Alike(x, y)
  {
    hide Raw, Run, Sum, Weighted;
    Deferred(s, x);
    Deferred(s, y);
    RawIs(s, x);
    RawIs(s, y);
    Cancel(s.s1, Sum(x), Sum(y));
    Cancel(s.s2 + |x| * s.s1, Weighted(x), Weighted(y));
  }

  /** From one start, equally long data have the same checksum exactly if both sums agree modulo the base. */
  lemma OfSameIff(adler: nat, x: seq<byte>, y: seq<byte>)
    requires Reduced(Unpack(adler)) && |x| == |y|
    ensures Of(adler, x) == Of(adler, y) <==> Alike(x, y)
  {
    var s := Unpack(adler);
    hide Run, Alike, Pack, Unpack;
    RunSameIff(s, x, y);
    RunReduced(s, x);
    RunReduced(s, y);
    UnpackPack(Run(s, x));
    UnpackPack(Run(s, y));
  }

  /** What the checksum is: its low half one more than the sum, its high half the weighted sum and the length. */
  lemma OfIs(data: seq<byte>)
    ensures Of(1, data) % 0x1_0000 == (1 + Sum(data)) % BASE
    ensures Of(1, data) / 0x1_0000 == (|data| + Weighted(data)) % BASE
  {
    hide Run, Raw, Sum, Weighted, Pack;
    Deferred(Sums(1, 0), data);
    RawIs(Sums(1, 0), data);
    RunReduced(Sums(1, 0), data);
    Halves(Run(Sums(1, 0), data));
  }

  lemma Halves(s: Sums)
    requires Reduced(s)
    ensures Pack(s) % 0x1_0000 == s.s1 && Pack(s) / 0x1_0000 == s.s2
  {
  }

  /** Twice the largest value s2 can have k octets after a reduction. */
  function Ceiling(k: nat): nat { 2 * (k + 1) * (BASE - 1) + 255 * (k * (k + 1)) }

  lemma CeilingStep(k: nat)
    ensures Ceiling(k + 1) == Ceiling(k) + 2 * (BASE - 1) + 2 * (255 * (k + 1))
  {
  }

  lemma {:induction false} CeilingMonotonic(k: nat, n: nat)
    requires k <= n
    ensures Ceiling(k) <= Ceiling(n)
    decreases n - k
  {
    hide Ceiling;
    if k < n {
      CeilingStep(k);
      CeilingMonotonic(k + 1, n);
    }
  }

  /** Over a block of at most NMAX octets neither sum outgrows 32 bits. */
  lemma {:induction false} NoOverflow(s: Sums, data: seq<byte>)
    requires Reduced(s) && |data| <= NMAX
    ensures Raw(s, data).s1 <= BASE - 1 + 255 * |data|
    ensures 2 * Raw(s, data).s2 <= Ceiling(|data|)
    ensures Raw(s, data).s1 < WORD && Raw(s, data).s2 < WORD
  {
    if data != [] {
      NoOverflow(s, data[..|data| - 1]);
      CeilingStep(|data| - 1);
    }
    CeilingMonotonic(|data|, NMAX);
  }

  /** One octet into 32-bit running sums. */
  method Accumulate(s: Sums, b: byte) returns (r: Sums)
    requires s.s1 + b < WORD && s.s2 + s.s1 + b < WORD
    ensures r == Add(s, b)
  {
    var s1 := (s.s1 + b) % WORD;
    var s2 := (s.s2 + s1) % WORD;
    r := Sums(s1, s2);
  }

  /** A block between reductions, sixteen octets at a time and then the rest. */
  method Block(s: Sums, buf: seq<byte>) returns (r: Sums)
    requires Reduced(s) && |buf| <= NMAX
    ensures r == Raw(s, buf)
  {
    r := s;
    var i := 0;
    while |buf| - i >= 16
      invariant 0 <= i <= |buf| && r == Raw(s, buf[..i])
    {
      for j := 0 to 16
        invariant r == Raw(s, buf[..i + j])
      {
        RawStep(s, buf, i + j);
        r := Accumulate(r, buf[i + j]);
      }
      i := i + 16;
    }
    while i < |buf|
      invariant 0 <= i <= |buf| && r == Raw(s, buf[..i])
    {
      RawStep(s, buf, i);
      r := Accumulate(r, buf[i]);
      i := i + 1;
    }
    assert buf[..i] == buf;
  }

  lemma RawStep(s: Sums, buf: seq<byte>, i: nat)
    requires Reduced(s) && i < |buf| <= NMAX
    ensures Raw(s, buf[..i + 1]) == Add(Raw(s, buf[..i]), buf[i])
    ensures Raw(s, buf[..i + 1]).s1 < WORD && Raw(s, buf[..i + 1]).s2 < WORD
  {
    assert buf[..i + 1][..i] == buf[..i];
    NoOverflow(s, buf[..i + 1]);
  }

  /** adler32: no buffer asks for the starting value. */
  method Adler(adler: nat, buf: Option<seq<byte>>) returns (r: nat)
    requires adler < WORD && Reduced(Unpack(adler))
    ensures r == if buf.None? then 1 else Of(adler, buf.value)
    ensures r < WORD && Reduced(Unpack(r))
  {
    if buf.None? {
      return 1;
    }
    var data := buf.value;
    var s := Unpack(adler);
    ghost var start := s;
    var i := 0;
    while i < |data|
      invariant 0 <= i <= |data| && Reduced(s) && s == Run(start, data[..i])
    {
      var k := if |data| - i < NMAX then |data| - i else NMAX;
      var block := data[i..i + k];
      var raw := Block(s, block);
      Deferred(s, block);
      RunConcat(start, data[..i], block);
      assert data[..i] + block == data[..i + k];
      s := Sums(raw.s1 % BASE, raw.s2 % BASE);
      i := i + k;
    }
    assert data[..i] == data;
    UnpackPack(s);
    r := s.s2 * 0x1_0000 + s.s1;
  }
}
