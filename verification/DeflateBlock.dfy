/** The body of a compressed block: the codes and extra bits of its tokens, and the end of the block. */
module DeflateBlock {
  import opened Bits
  import opened BitOrder
  import opened HuffmanCodes
  import opened InflateSpec
  import opened Lz77Spec
  import opened DeflateCodes

  predicate TreeOk(lens: seq<nat>) { LensOk(lens) && Fits(Counts(lens)) }

  /** Symbol n has a code. */
  predicate Has(lens: seq<nat>, n: nat) { n < |lens| && lens[n] > 0 }

  function Value(b: bv8): (n: byte) { b as byte }

  // The symbols and extra bits of a length and a distance.

  predicate LengthOk(len: nat) { MIN_MATCH <= len <= MAX_MATCH }

  predicate DistOk(dist: nat) { 1 <= dist <= MAX_DIST }

  function LengthSymbol(m: Maps, len: nat): (n: nat)
    requires MapsOk(m) && LengthOk(len)
    ensures END_BLOCK < n <= END_BLOCK + LENGTHS
  {
    assert LengthAt(m, len - MIN_MATCH);
    END_BLOCK + 1 + m.lengthCode[len - MIN_MATCH]
  }

  function LengthRest(m: Maps, len: nat): (bits: seq<bool>)
    requires MapsOk(m) && LengthOk(len)
  {
    var lc := len - MIN_MATCH;
    assert LengthAt(m, lc);
    var code := m.lengthCode[lc];
    if LengthExtra(code) == 0 then [] else Low(lc - m.baseLength[code], LengthExtra(code))
  }

  lemma LengthRestIs(m: Maps, len: nat)
    requires MapsOk(m) && LengthOk(len)
    ensures var i, bits := LengthSymbol(m, len) - 257, LengthRest(m, len);
      |bits| == LengthExtra(i) <= 5 && LengthBase(i) + Num(bits) == len
  {
    assert LengthAt(m, len - MIN_MATCH);
    var code := m.lengthCode[len - MIN_MATCH];
    ExtraSmall(code);
    hide LengthBase, LengthExtra, Num, Low, Pow2, MapsOk;
    NoNumber();
  }

  lemma NoNumber()
    ensures Num([]) == 0
  {
  }

  function DistSymbol(m: Maps, dist: nat): (n: nat)
    requires MapsOk(m) && DistOk(dist)
    ensures n < DISTANCES
  {
    assert DistAt(m, dist - 1);
    DCode(m.distCode, dist - 1)
  }

  function DistRest(m: Maps, dist: nat): (bits: seq<bool>)
    requires MapsOk(m) && DistOk(dist)
  {
    assert DistAt(m, dist - 1);
    var code := DistSymbol(m, dist);
    Low(dist - 1 - m.baseDist[code], DistExtra(code))
  }

  lemma DistRestIs(m: Maps, dist: nat)
    requires MapsOk(m) && DistOk(dist)
    ensures var i, bits := DistSymbol(m, dist), DistRest(m, dist);
      |bits| == DistExtra(i) <= 13 && DistBase(i) + Num(bits) == dist
  {
    assert DistAt(m, dist - 1);
    DistSmall(DistSymbol(m, dist));
    hide DistBase, DistExtra, Num, Low, Pow2, MapsOk;
  }

  // The bits of tokens.

  /** Both trees and the mappings are in order. */
  ghost predicate Coding(m: Maps, ll: seq<nat>, ld: seq<nat>) { MapsOk(m) && TreeOk(ll) && TreeOk(ld) }

  /** All symbols of the token have codes. */
  predicate Codable(m: Maps, ll: seq<nat>, ld: seq<nat>, t: Token)
    requires MapsOk(m)
  {
    match t
    case Literal(b) => Has(ll, Value(b))
    case Copy(dist, len) =>
      LengthOk(len) && DistOk(dist) && Has(ll, LengthSymbol(m, len)) && Has(ld, DistSymbol(m, dist))
  }

  function TokenBits(m: Maps, ll: seq<nat>, ld: seq<nat>, t: Token): seq<bool>
    requires Coding(m, ll, ld) && Codable(m, ll, ld, t)
  {
    match t
    case Literal(b) => Code(ll, Value(b))
    case Copy(dist, len) =>
      Code(ll, LengthSymbol(m, len)) + LengthRest(m, len) + Code(ld, DistSymbol(m, dist)) + DistRest(m, dist)
  }

  ghost predicate AllCodable(m: Maps, ll: seq<nat>, ld: seq<nat>, tokens: seq<Token>)
    requires MapsOk(m)
  {
    forall i :: 0 <= i < |tokens| ==> Codable(m, ll, ld, tokens[i])
  }

  ghost function TokensBits(m: Maps, ll: seq<nat>, ld: seq<nat>, tokens: seq<Token>): seq<bool>
    requires Coding(m, ll, ld) && AllCodable(m, ll, ld, tokens)
  {
    if tokens == [] then []
    else TokensBits(m, ll, ld, tokens[..|tokens| - 1]) + TokenBits(m, ll, ld, tokens[|tokens| - 1])
  }

  /** The whole body. */
  ghost function BlockBits(m: Maps, ll: seq<nat>, ld: seq<nat>, tokens: seq<Token>): seq<bool>
    requires Coding(m, ll, ld) && AllCodable(m, ll, ld, tokens) && Has(ll, END_BLOCK)
  {
    TokensBits(m, ll, ld, tokens) + Code(ll, END_BLOCK)
  }

  // Sending them.

  /** codes are the codes of the lengths, as gen_codes leaves them. */
  ghost predicate TreeIs(codes: seq<nat>, lens: seq<nat>)
    requires TreeOk(lens)
  {
    |codes| == |lens| && forall n :: 0 <= n < |lens| && lens[n] > 0 ==> codes[n] == Num(Code(lens, n))
  }

  /** send_code */
  method SendCode(buf: BitBuffer, codes: seq<nat>, lens: seq<nat>, n: nat)
    requires buf.Valid() && TreeOk(lens) && TreeIs(codes, lens) && Has(lens, n)
    modifies buf
    ensures buf.Valid() && buf.Sent() == old(buf.Sent()) + Code(lens, n)
  {
    hide Code, Num, Low, Pow2, Fits, Counts, BitBuffer.Sent, BitBuffer.Valid;
    LowNum(Code(lens, n));
    buf.SendBits(codes[n], lens[n]);
  }

  lemma Regroup(a: seq<bool>, b: seq<bool>, c: seq<bool>, d: seq<bool>, e: seq<bool>)
    ensures a + b + c + d + e == a + (b + c + d + e)
  {
  }

  /** One round of compress_block. */
  method SendToken(buf: BitBuffer, m: Maps, lcodes: seq<nat>, ll: seq<nat>, dcodes: seq<nat>, ld: seq<nat>, t: Token)
    requires buf.Valid() && Coding(m, ll, ld) && TreeIs(lcodes, ll) && TreeIs(dcodes, ld) && Codable(m, ll, ld, t)
    modifies buf
    ensures buf.Valid() && buf.Sent() == old(buf.Sent()) + TokenBits(m, ll, ld, t)
  {
    hide Code, Num, Low, Pow2, Fits, Counts, LensOk, MapsOk, BitBuffer.Sent, BitBuffer.Valid, LengthRest, DistRest;
    if t.Literal? {
      SendCode(buf, lcodes, ll, Value(t.b));
    } else {
      ghost var before := buf.Sent();
      SendCode(buf, lcodes, ll, LengthSymbol(m, t.len));
      SendLengthRest(buf, m, t.len);
      SendCode(buf, dcodes, ld, DistSymbol(m, t.dist));
      SendDistRest(buf, m, t.dist);
      Regroup(before, Code(ll, LengthSymbol(m, t.len)), LengthRest(m, t.len), Code(ld, DistSymbol(m, t.dist)),
              DistRest(m, t.dist));
    }
  }

  method SendLengthRest(buf: BitBuffer, m: Maps, len: nat)
    requires buf.Valid() && MapsOk(m) && LengthOk(len)
    modifies buf
    ensures buf.Valid() && buf.Sent() == old(buf.Sent()) + LengthRest(m, len)
  {
    hide Num, Low, Pow2, BitBuffer.Sent, BitBuffer.Valid, LengthExtra, LengthBase;
    ghost var rest := LengthRest(m, len);
    assert LengthAt(m, len - MIN_MATCH);
    LengthRestIs(m, len);
    var lc := len - MIN_MATCH;
    var code := m.lengthCode[lc];
    var extra := LengthExtra(code);
    if extra != 0 {
      buf.SendBits(lc - m.baseLength[code], extra);
    } else {
      assert buf.Sent() + rest == buf.Sent();
    }
  }

  method SendDistRest(buf: BitBuffer, m: Maps, dist: nat)
    requires buf.Valid() && MapsOk(m) && DistOk(dist)
    modifies buf
    ensures buf.Valid() && buf.Sent() == old(buf.Sent()) + DistRest(m, dist)
  {
    hide Num, Low, Pow2, BitBuffer.Sent, BitBuffer.Valid, DistExtra, DistBase;
    ghost var rest := DistRest(m, dist);
    assert DistAt(m, dist - 1);
    DistRestIs(m, dist);
    var code := DistSymbol(m, dist);
    var extra := DistExtra(code);
    if extra != 0 {
      buf.SendBits(dist - 1 - m.baseDist[code], extra);
    } else {
      assert buf.Sent() + rest == buf.Sent();
    }
  }

  lemma ExtraSmall(c: nat)
    requires c < LENGTHS
    ensures LengthExtra(c) <= 5
  {
  }

  lemma DistSmall(c: nat)
    requires c < DISTANCES
    ensures DistExtra(c) <= 13
  {
  }

  /** compress_block: all tokens in turn, and the end of the block. */
  method CompressBlock(buf: BitBuffer, m: Maps, lcodes: seq<nat>, ll: seq<nat>, dcodes: seq<nat>, ld: seq<nat>,
                       tokens: seq<Token>)
    requires buf.Valid() && Coding(m, ll, ld) && TreeIs(lcodes, ll) && TreeIs(dcodes, ld)
    requires AllCodable(m, ll, ld, tokens) && Has(ll, END_BLOCK)
    modifies buf
    ensures buf.Valid() && buf.Sent() == old(buf.Sent()) + BlockBits(m, ll, ld, tokens)
  {
    hide Coding, TreeIs, Codable, TokenBits, Code, BitBuffer.Sent, BitBuffer.Valid;
    ghost var before := buf.Sent();
    CodingIs(m, ll, ld);
    var lx := 0;
    assert tokens[..0] == [] && before + [] == before;
    while lx < |tokens|
      invariant 0 <= lx <= |tokens| && buf.Valid() && AllCodable(m, ll, ld, tokens[..lx])
      invariant buf.Sent() == before + TokensBits(m, ll, ld, tokens[..lx])
    {
      assert tokens[..lx + 1][..lx] == tokens[..lx];
      SendToken(buf, m, lcodes, ll, dcodes, ld, tokens[lx]);
      lx := lx + 1;
    }
    assert tokens[..lx] == tokens;
    SendCode(buf, lcodes, ll, END_BLOCK);
  }

  lemma CodingIs(m: Maps, ll: seq<nat>, ld: seq<nat>)
    requires Coding(m, ll, ld)
    ensures MapsOk(m) && TreeOk(ll) && TreeOk(ld)
  {
  }
}
