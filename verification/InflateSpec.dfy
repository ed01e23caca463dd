/** What the decoder makes of the bits of a compressed block: one literal or copy after the other. */
module InflateSpec {
  import opened Bits
  import opened BitOrder
  import opened HuffmanTables

  // The bits of the input, each octet least significant bit first.

  function Octet(b: byte): (s: seq<bool>)
    ensures |s| == 8 && Num(s) == b
  {
    assert Pow2(8) == 256;
    Low(b, 8)
  }

  function Stream(input: seq<byte>): (s: seq<bool>)
    ensures |s| == 8 * |input|
  {
    if input == [] then [] else Stream(input[..|input| - 1]) + Octet(input[|input| - 1])
  }

  lemma {:induction false} StreamAt(input: seq<byte>, p: nat)
    requires p < |input|
    ensures Stream(input)[8 * p..8 * p + 8] == Octet(input[p])
  {
    var m := |input| - 1;
    if p == m {
      assert Stream(input)[8 * m..] == Octet(input[m]);
    } else {
      StreamAt(input[..m], p);
      assert Stream(input)[..8 * m] == Stream(input[..m]);
      assert Stream(input)[8 * p..8 * p + 8] == Stream(input)[..8 * m][8 * p..8 * p + 8];
    }
  }

  // Lengths and distances.

  const LITERALS: nat := 256
  const END_BLOCK: nat := 256
  const INVALID: nat := 112

  const CPLENS: seq<nat> := [3, 4, 5, 6, 7, 8, 9, 10, 11, 13, 15, 17, 19, 23, 27, 31,
                             35, 43, 51, 59, 67, 83, 99, 115, 131, 163, 195, 227, 258, 0, 0]
  const CPLEXT: seq<nat> := [0, 0, 0, 0, 0, 0, 0, 0, 1, 1, 1, 1, 2, 2, 2, 2,
                             3, 3, 3, 3, 4, 4, 4, 4, 5, 5, 5, 5, 0, 112, 112]
  const CPDIST: seq<nat> := [1, 2, 3, 4, 5, 7, 9, 13, 17, 25, 33, 49, 65, 97, 129, 193,
                             257, 385, 513, 769, 1025, 1537, 2049, 3073, 4097, 6145,
                             8193, 12289, 16385, 24577]
  const CPDEXT: seq<nat> := [0, 0, 0, 0, 1, 1, 2, 2, 3, 3, 4, 4, 5, 5, 6, 6,
                             7, 7, 8, 8, 9, 9, 10, 10, 11, 11, 12, 12, 13, 13]

  const LENGTH_CODES: nat := 31
  const DIST_CODES: nat := 30

  /** The number a length code starts from and how many bits are added to it. */
  function LengthBase(i: nat): nat
    requires i < LENGTH_CODES
  {
    CPLENS[i]
  }

  function LengthExtra(i: nat): nat
    requires i < LENGTH_CODES
  {
    CPLEXT[i]
  }

  /** Likewise for a distance code. */
  function DistBase(i: nat): nat
    requires i < DIST_CODES
  {
    CPDIST[i]
  }

  function DistExtra(i: nat): nat
    requires i < DIST_CODES
  {
    CPDEXT[i]
  }

  // The window, written at q.

  /** Where the octet dist before position q is: in the window, or wrapped round its end. */
  function Source(size: nat, q: nat, dist: nat): int {
    if q >= dist then q - dist else size - (dist - q)
  }

  /** len octets copied one by one from dist before. */
  function CopyWindow(window: seq<byte>, q: nat, dist: nat, len: nat): (r: seq<byte>)
    requires 1 <= dist <= |window| && q + len <= |window|
    ensures |r| == |window|
    decreases len
  {
    if len == 0 then window
    else CopyWindow(window[q := window[Source(|window|, q, dist)]], q + 1, dist, len - 1)
  }

  // One literal, copy or end.

  datatype Status = More | EndOfBlock | DataError | Unspecified

  /** The window, where it is written next, and the bits consumed. */
  datatype Out = Out(window: seq<byte>, q: nat, pos: nat, status: Status)

  /** The two decoding tables and the bits their first levels are indexed by. */
  datatype Codes = Codes(tl: Tables, bl: nat, td: Tables, bd: nat)

  /** The number in the next n bits. */
  function Extra(bits: seq<bool>, pos: nat, n: nat): nat
    requires pos + n <= |bits|
  {
    Num(bits[pos..pos + n])
  }

  function AfterCopy(window: seq<byte>, q: nat, pos: nat, len: nat, dist: nat): Out {
    if 1 <= dist <= |window| && q + len <= |window| then Out(CopyWindow(window, q, dist, len), q + len, pos, More)
    else Out(window, q, pos, Unspecified)
  }

  function AfterDistCode(bits: seq<bool>, window: seq<byte>, q: nat, len: nat, w: Result): Out {
    match w
    case Symbol(n, pos) =>
      if n < DIST_CODES && pos + DistExtra(n) <= |bits| then
        AfterCopy(window, q, pos + DistExtra(n), len, DistBase(n) + Extra(bits, pos, DistExtra(n)))
      else Out(window, q, pos, Unspecified)
    case BadCode(pos) => Out(window, q, pos, DataError)
    case Stuck => Out(window, q, 0, Unspecified)
  }

  function AfterLength(c: Codes, bits: seq<bool>, window: seq<byte>, q: nat, pos: nat, len: nat): Out {
    AfterDistCode(bits, window, q, len, Walk(c.td, 0, c.bd, bits, pos))
  }

  function AfterLenCode(c: Codes, bits: seq<bool>, window: seq<byte>, q: nat, w: Result): Out {
    match w
    case Symbol(n, pos) =>
      if n < LITERALS then
        if q < |window| then Out(window[q := n], q + 1, pos, More) else Out(window, q, pos, Unspecified)
      else if n == END_BLOCK then Out(window, q, pos, EndOfBlock)
      else if n - 257 < LENGTH_CODES && LengthExtra(n - 257) == INVALID then Out(window, q, pos, DataError)
      else if n - 257 < LENGTH_CODES && pos + LengthExtra(n - 257) <= |bits| then
        AfterLength(c, bits, window, q, pos + LengthExtra(n - 257),
                    LengthBase(n - 257) + Extra(bits, pos, LengthExtra(n - 257)))
      else Out(window, q, pos, Unspecified)
    case BadCode(pos) => Out(window, q, pos, DataError)
    case Stuck => Out(window, q, 0, Unspecified)
  }

  /** One symbol, with its distance if it has one, from the bits at pos. */
  function One(c: Codes, bits: seq<bool>, window: seq<byte>, q: nat, pos: nat): Out {
    AfterLenCode(c, bits, window, q, Walk(c.tl, 0, c.bl, bits, pos))
  }

  /** count symbols, or up to the end of the block or an error. */
  function Run(c: Codes, bits: seq<bool>, o: Out, count: nat): (r: Out)
    decreases count
  {
    if count == 0 || o.status != More then o
    else Run(c, bits, One(c, bits, o.window, o.q, o.pos), count - 1)
  }

  lemma {:induction false} RunOn(c: Codes, bits: seq<bool>, o: Out, count: nat)
    requires Run(c, bits, o, count).status == More
    ensures var m := Run(c, bits, o, count); Run(c, bits, o, count + 1) == One(c, bits, m.window, m.q, m.pos)
    decreases count
  {
    if count > 0 {
      RunOn(c, bits, One(c, bits, o.window, o.q, o.pos), count - 1);
    }
  }
}
