/** What deflate sends as a block, inflate puts out again. */
module DeflateInflate {
  import opened Bits
  import opened BitOrder
  import opened HuffmanCodes
  import opened HuffmanTables
  import opened HuftDecode
  import opened InflateSpec
  import InflateCodes
  import opened InflateFlow
  import InflateBlock
  import opened Lz77Spec
  import opened DeflateCodes
  import opened DeflateBlock

  // Reading back one token.

  lemma CodeRead(lens: seq<nat>, t: Tables, l: nat, n: nat, pre: seq<bool>, tail: seq<bool>)
    requires TreeOk(lens) && Inverts(lens, t, l) && Has(lens, n) && |tail| >= HuffmanCodes.MAX_BITS
    ensures Walk(t, 0, l, pre + Code(lens, n) + tail, |pre|) == Symbol(n, |pre| + lens[n])
  {
    hide Walk, Code, Fits, Counts;
    var s, bits := Code(lens, n) + tail, pre + Code(lens, n) + tail;
    assert Walk(t, 0, l, s, 0) == Symbol(n, lens[n]);
    assert bits == pre + s;
    assert bits[|pre|..|pre| + |s|] == s;
    InflateCodes.WalkShift(t, 0, l, s, 0, |pre|, bits);
  }

  lemma ExtraRead(pre: seq<bool>, rest: seq<bool>, tail: seq<bool>)
    ensures Extra(pre + rest + tail, |pre|, |rest|) == Num(rest)
  {
    hide Num;
    assert (pre + rest + tail)[|pre|..|pre| + |rest|] == rest;
  }

  /** The codes of both trees decode as they should; the one for distances if there are copies. */
  ghost predicate Decoding(ll: seq<nat>, ld: seq<nat>, c: Codes, copies: bool)
    requires TreeOk(ll) && TreeOk(ld)
  {
    Inverts(ll, c.tl, c.bl) && (copies ==> Inverts(ld, c.td, c.bd))
  }

  function ItemOf(t: Token): Item {
    match t
    case Literal(b) => Byte(Value(b))
    case Copy(dist, len) => Match(dist, len)
  }

  lemma LiteralRead(m: Maps, ll: seq<nat>, ld: seq<nat>, c: Codes, b: bv8, pre: seq<bool>, tail: seq<bool>)
    requires Coding(m, ll, ld) && Codable(m, ll, ld, Literal(b)) && Inverts(ll, c.tl, c.bl)
    requires |tail| >= HuffmanCodes.MAX_BITS
    ensures var code := TokenBits(m, ll, ld, Literal(b));
      ReadItem(c, pre + code + tail, |pre|) == Read(Byte(Value(b)), |pre| + |code|)
  {
    hide Walk, Code, Inverts, Fits, Counts, MapsOk;
    CodeRead(ll, c.tl, c.bl, Value(b), pre, tail);
  }

  lemma DistanceRead(m: Maps, ld: seq<nat>, c: Codes, len: nat, dist: nat, pre: seq<bool>, tail: seq<bool>)
    requires MapsOk(m) && TreeOk(ld) && DistOk(dist) && Has(ld, DistSymbol(m, dist)) && Inverts(ld, c.td, c.bd)
    requires |tail| >= HuffmanCodes.MAX_BITS
    ensures var code, rest := Code(ld, DistSymbol(m, dist)), DistRest(m, dist);
      ReadDist(pre + code + rest + tail, len, Walk(c.td, 0, c.bd, pre + code + rest + tail, |pre|))
      == Read(Match(dist, len), |pre| + |code| + |rest|)
  {
    hide Walk, Code, Inverts, Fits, Counts, MapsOk, DistRest, DistSymbol, DistExtra, DistBase, Extra, ReadDist, Num;
    var n := DistSymbol(m, dist);
    var code, rest := Code(ld, n), DistRest(m, dist);
    var bits := pre + code + rest + tail;
    assert bits == pre + code + (rest + tail);
    CodeRead(ld, c.td, c.bd, n, pre, rest + tail);
    DistRestIs(m, dist);
    ExtraRead(pre + code, rest, tail);
    ReadDistIs(bits, len, n, |pre + code|);
  }

  lemma ReadDistIs(bits: seq<bool>, len: nat, n: nat, pos: nat)
    requires n < DIST_CODES && pos + DistExtra(n) <= |bits|
    ensures ReadDist(bits, len, Symbol(n, pos))
         == Read(Match(DistBase(n) + Extra(bits, pos, DistExtra(n)), len), pos + DistExtra(n))
  {
    hide DistExtra, DistBase, Extra;
  }

  lemma CopyRead(m: Maps, ll: seq<nat>, ld: seq<nat>, c: Codes, dist: nat, len: nat, pre: seq<bool>, tail: seq<bool>)
    requires Coding(m, ll, ld) && Codable(m, ll, ld, Copy(dist, len)) && Decoding(ll, ld, c, true)
    requires |tail| >= HuffmanCodes.MAX_BITS
    ensures var code := TokenBits(m, ll, ld, Copy(dist, len));
      ReadItem(c, pre + code + tail, |pre|) == Read(Match(dist, len), |pre| + |code|)
  {
    hide Walk, Code, Inverts, Fits, Counts, MapsOk, DistRest, LengthRest, LengthExtra, LengthBase, DistExtra, DistBase,
         Extra, ReadDist;
    var n := LengthSymbol(m, len);
    var lc, lr := Code(ll, n), LengthRest(m, len);
    var dc, dr := Code(ld, DistSymbol(m, dist)), DistRest(m, dist);
    var bits := pre + (lc + lr + dc + dr) + tail;
    assert bits == pre + lc + (lr + dc + dr + tail) == pre + lc + lr + (dc + dr + tail);
    assert bits == (pre + lc + lr) + dc + dr + tail;
    CodeRead(ll, c.tl, c.bl, n, pre, lr + dc + dr + tail);
    LengthRestIs(m, len);
    NotInvalid(n - 257);
    ExtraRead(pre + lc, lr, dc + dr + tail);
    DistanceRead(m, ld, c, len, dist, pre + lc + lr, tail);
  }

  lemma NotInvalid(i: nat)
    requires i < LENGTHS
    ensures i < LENGTH_CODES && LengthExtra(i) != INVALID
  {
  }

  lemma TokenRead(m: Maps, ll: seq<nat>, ld: seq<nat>, c: Codes, t: Token, pre: seq<bool>, tail: seq<bool>)
    requires Coding(m, ll, ld) && Codable(m, ll, ld, t) && Decoding(ll, ld, c, t.Copy?)
    requires |tail| >= HuffmanCodes.MAX_BITS
    ensures var code := TokenBits(m, ll, ld, t);
      ReadItem(c, pre + code + tail, |pre|) == Read(ItemOf(t), |pre| + |code|)
  {
    hide TokenBits, ReadItem, Codable, Coding, Inverts;
    match t
    case Literal(b) => LiteralRead(m, ll, ld, c, b, pre, tail);
    case Copy(dist, len) => CopyRead(m, ll, ld, c, dist, len, pre, tail);
  }

  lemma EndRead(ll: seq<nat>, c: Codes, pre: seq<bool>, tail: seq<bool>)
    requires TreeOk(ll) && Inverts(ll, c.tl, c.bl) && Has(ll, END_BLOCK) && |tail| >= HuffmanCodes.MAX_BITS
    ensures ReadItem(c, pre + Code(ll, END_BLOCK) + tail, |pre|) == Read(End, |pre| + ll[END_BLOCK])
  {
    hide Walk, Code, Inverts, Fits, Counts;
    CodeRead(ll, c.tl, c.bl, END_BLOCK, pre, tail);
  }

  // What the tokens expand to comes out.

  /** The octets of a text as numbers. */
  function Values(text: seq<bv8>): (r: seq<byte>)
    ensures |r| == |text| && forall i :: 0 <= i < |text| ==> r[i] == Value(text[i])
  {
    seq(|text|, i requires 0 <= i < |text| => Value(text[i]))
  }

  lemma {:induction false} CopyOutIs(text: seq<bv8>, dist: nat, len: nat)
    requires 1 <= dist <= |text|
    ensures var r := CopyOut(text, dist, len);
      && text <= r && |r| == |text| + len
      && forall i :: |text| <= i < |r| ==> r[i] == r[i - dist]
    decreases len
  {
    if len > 0 {
      var more := text + [text[|text| - dist]];
      CopyOutIs(more, dist, len - 1);
      var r := CopyOut(text, dist, len);
      assert more <= r && r[|text|] == text[|text| - dist] == r[|text| - dist];
    }
  }

  /** Two texts that go on in the same way from the same start are the same. */
  lemma {:induction false} SameCopy(a: seq<byte>, b: seq<byte>, n: nat, dist: nat, k: nat)
    requires n <= |a| == |b| && 1 <= dist <= n <= k <= |a| && a[..n] == b[..n]
    requires forall i :: n <= i < |a| ==> a[i] == a[i - dist] && b[i] == b[i - dist]
    ensures a[..k] == b[..k]
    decreases k
  {
    if k > n {
      SameCopy(a, b, n, dist, k - 1);
      assert a[k - 1 - dist] == a[..k - 1][k - 1 - dist] == b[..k - 1][k - 1 - dist];
      assert a[..k] == a[..k - 1] + [a[k - 1]] && b[..k] == b[..k - 1] + [b[k - 1]];
    }
  }

  lemma CopyComesOut(f: Flow, text: seq<bv8>, dist: nat, len: nat)
    requires FlowOk(f) && Held(f) && f.out == Values(text) && 1 <= dist <= |f.window| && dist <= |text|
    ensures var r := EmitCopy(f, dist, len); Held(r) && r.out == Values(CopyOut(text, dist, len))
  {
    hide Held, EmitCopy, CopyOut, Value;
    CopyHeld(f, dist, len);
    CopyOutIs(text, dist, len);
    var a, b := EmitCopy(f, dist, len).out, Values(CopyOut(text, dist, len));
    SameCopy(a, b, |text|, dist, |a|);
    assert a[..|a|] == a && b[..|a|] == b;
  }

  /** Applying the item of the next token moves the output on over what the token stands for. */
  lemma TokenComesOut(f: Flow, done: seq<Token>, t: Token, pos: nat)
    requires FlowOk(f) && Held(f) && f.out == Values(Expand(done))
    requires t.Copy? ==> 1 <= t.dist <= |f.window| && t.dist <= |Expand(done)|
    ensures var p := Apply(f, Read(ItemOf(t), pos));
      p.status == More && p.pos == pos && Held(p.f) && p.f.out == Values(Expand(done + [t]))
  {
    hide Held, EmitCopy, CopyOut, Value;
    assert (done + [t])[..|done|] == done;
    match t
    case Literal(b) => EmitHeld(f, Value(b));
    case Copy(dist, len) => CopyComesOut(f, Expand(done), dist, len);
  }

  /** No copy reaches further back than size. */
  predicate Near(ts: seq<Token>, size: nat) { forall i :: 0 <= i < |ts| && ts[i].Copy? ==> ts[i].dist <= size }

  /** The copies of ts, behind those of done, read text that is still in a window of this size. */
  ghost predicate InReach(done: seq<Token>, ts: seq<Token>, size: nat) { Grounded(done + ts) && Near(ts, size) }

  lemma GroundedFront(a: seq<Token>, b: seq<Token>)
    requires Grounded(a + b)
    ensures Grounded(a)
  {
    hide Expand;
    var all := a + b;
    forall i | 0 <= i < |a| && a[i].Copy? ensures GroundedAt(a, i) {
      assert GroundedAt(all, i) && all[..i] == a[..i];
    }
  }

  lemma NearParts(a: seq<Token>, b: seq<Token>, size: nat)
    requires Near(a + b, size)
    ensures Near(a, size) && Near(b, size)
  {
    var all := a + b;
    assert forall i :: 0 <= i < |a| ==> all[i] == a[i];
    assert forall i :: 0 <= i < |b| ==> all[|a| + i] == b[i];
  }

  lemma ReachLess(done: seq<Token>, ts: seq<Token>, size: nat)
    requires InReach(done, ts, size) && ts != []
    ensures InReach(done, ts[..|ts| - 1], size)
    ensures var t := ts[|ts| - 1]; t.Copy? ==> 1 <= t.dist <= |Expand(done + ts[..|ts| - 1])|
  {
    hide Expand, Grounded;
    var k := |ts| - 1;
    var all, less := done + ts, done + ts[..k];
    assert all == less + [ts[k]];
    GroundedFront(less, [ts[k]]);
    LastGrounded(less, ts[k]);
  }

  lemma LastGrounded(ts: seq<Token>, t: Token)
    requires Grounded(ts + [t])
    ensures t.Copy? ==> 1 <= t.dist <= |Expand(ts)|
  {
    hide Expand;
    var all := ts + [t];
    assert all[..|ts|] == ts && all[|ts|] == t;
    if t.Copy? {
      assert GroundedAt(all, |ts|);
    }
  }

  predicate HasCopy(ts: seq<Token>) { exists i :: 0 <= i < |ts| && ts[i].Copy? }

  /** All tokens of a block, whatever follows. */
  lemma {:induction false} TokensInflate(m: Maps, ll: seq<nat>, ld: seq<nat>, c: Codes, f: Flow, done: seq<Token>,
                                         ts: seq<Token>, pre: seq<bool>, tail: seq<bool>)
    requires Coding(m, ll, ld) && AllCodable(m, ll, ld, ts) && Decoding(ll, ld, c, HasCopy(ts))
    requires FlowOk(f) && Held(f) && f.out == Values(Expand(done)) && InReach(done, ts, |f.window|)
    requires |tail| >= HuffmanCodes.MAX_BITS
    ensures var bits := TokensBits(m, ll, ld, ts);
      var p := Inflated(c, pre + bits + tail, Progress(f, |pre|, More), |ts|);
      && p.status == More && p.pos == |pre| + |bits|
      && FlowOk(p.f) && Held(p.f) && p.f.out == Values(Expand(done + ts))
    decreases |ts|
  {
    hide Coding, Codable, TokenBits, ReadItem, Apply, Held, Expand, Value, InReach, Inverts;
    if ts == [] {
      assert done + ts == done;
    } else {
      var k := |ts| - 1;
      var front, t := ts[..k], ts[k];
      ReachLess(done, ts, |f.window|);
      Reach(done, ts, |f.window|, k);
      var a, b := TokensBits(m, ll, ld, front), TokenBits(m, ll, ld, t);
      assert pre + (a + b) + tail == pre + a + (b + tail) == (pre + a) + b + tail;
      TokensInflate(m, ll, ld, c, f, done, front, pre, b + tail);
      var start, bits := Progress(f, |pre|, More), pre + (a + b) + tail;
      var p := Inflated(c, bits, start, k);
      InflatedOn(c, bits, start, k);
      TokenRead(m, ll, ld, c, t, pre + a, tail);
      TokenComesOut(p.f, done + front, t, |pre| + |a| + |b|);
      assert done + front + [t] == done + ts;
    }
  }

  lemma Reach(done: seq<Token>, ts: seq<Token>, size: nat, i: nat)
    requires InReach(done, ts, size) && i < |ts|
    ensures ts[i].Copy? ==> ts[i].dist <= size
  {
  }

  /**
   * A block sent with two trees, read with tables that decode them: inflate puts out what its
   * tokens stand for behind the text so far, stops at its end, and holds the text in the window.
   */
  lemma BlockInflates(m: Maps, ll: seq<nat>, ld: seq<nat>, c: Codes, f: Flow, done: seq<Token>, ts: seq<Token>,
                      pre: seq<bool>, tail: seq<bool>)
    requires Coding(m, ll, ld) && AllCodable(m, ll, ld, ts) && Has(ll, END_BLOCK) && Decoding(ll, ld, c, HasCopy(ts))
    requires FlowOk(f) && Held(f) && f.out == Values(Expand(done)) && InReach(done, ts, |f.window|)
    requires |tail| >= HuffmanCodes.MAX_BITS
    ensures var bits := BlockBits(m, ll, ld, ts);
      var p := Inflated(c, pre + bits + tail, Progress(f, |pre|, More), |ts| + 1);
      && p.status == EndOfBlock && p.pos == |pre| + |bits|
      && FlowOk(p.f) && Held(p.f) && p.f.out == Values(Expand(done + ts))
  {
    hide Codable, TokenBits, ReadItem, Held, Expand, Value, InReach, Inverts, TokensBits, Code, Fits, Counts, MapsOk;
    var a, b := TokensBits(m, ll, ld, ts), Code(ll, END_BLOCK);
    assert pre + (a + b) + tail == pre + a + (b + tail) == (pre + a) + b + tail;
    TokensInflate(m, ll, ld, c, f, done, ts, pre, b + tail);
    InflatedOn(c, pre + (a + b) + tail, Progress(f, |pre|, More), |ts|);
    EndRead(ll, c, pre + a, tail);
  }

  // The loop of inflate_codes stops exactly there.

  lemma {:induction false} Stopped(c: Codes, bits: seq<bool>, p: Progress, k: nat, j: nat)
    requires FlowOk(p.f) && k <= j && Inflated(c, bits, p, k).status != More
    ensures Inflated(c, bits, p, j) == Inflated(c, bits, p, k)
    decreases k
  {
    hide Apply, ReadItem;
    if k > 0 && p.status == More {
      Stopped(c, bits, Apply(p.f, ReadItem(c, bits, p.pos)), k - 1, j - 1);
    }
  }

  /** The bits of the first k tokens and those behind them. */
  lemma {:induction false} BitsSplit(m: Maps, ll: seq<nat>, ld: seq<nat>, ts: seq<Token>, k: nat)
    returns (rest: seq<bool>)
    requires Coding(m, ll, ld) && AllCodable(m, ll, ld, ts) && k <= |ts|
    ensures AllCodable(m, ll, ld, ts[..k]) && TokensBits(m, ll, ld, ts) == TokensBits(m, ll, ld, ts[..k]) + rest
    decreases |ts|
  {
    hide Coding, Codable, TokenBits;
    if k == |ts| {
      rest := [];
      assert ts[..k] == ts;
    } else {
      var front := ts[..|ts| - 1];
      assert front[..k] == ts[..k];
      var more := BitsSplit(m, ll, ld, front, k);
      rest := more + TokenBits(m, ll, ld, ts[|ts| - 1]);
    }
  }

  lemma {:induction false} ReachPart(done: seq<Token>, ts: seq<Token>, size: nat, k: nat)
    requires InReach(done, ts, size) && k <= |ts|
    ensures InReach(done, ts[..k], size)
  {
    hide Grounded, Near;
    assert done + ts == (done + ts[..k]) + ts[k..] && ts == ts[..k] + ts[k..];
    GroundedFront(done + ts[..k], ts[k..]);
    NearParts(ts[..k], ts[k..], size);
  }

  /** After k tokens of a block the decoder wants more, and the end of the block is still to come. */
  lemma PartInflates(m: Maps, ll: seq<nat>, ld: seq<nat>, c: Codes, f: Flow, done: seq<Token>, ts: seq<Token>,
                     pre: seq<bool>, tail: seq<bool>, k: nat)
    requires Coding(m, ll, ld) && AllCodable(m, ll, ld, ts) && Has(ll, END_BLOCK) && Decoding(ll, ld, c, HasCopy(ts))
    requires FlowOk(f) && Held(f) && f.out == Values(Expand(done)) && InReach(done, ts, |f.window|)
    requires |tail| >= HuffmanCodes.MAX_BITS && k <= |ts|
    ensures var bits := pre + BlockBits(m, ll, ld, ts) + tail;
      var p := Inflated(c, bits, Progress(f, |pre|, More), k); p.status == More && p.pos + |tail| <= |bits|
  {
    hide Coding, Codable, TokenBits, Held, Expand, InReach, Inverts, TokensBits, Code, Inflated;
    CodingIs(m, ll, ld);
    var part := ts[..k];
    var rest := BitsSplit(m, ll, ld, ts, k);
    var a, b := TokensBits(m, ll, ld, part), Code(ll, END_BLOCK);
    assert pre + (a + rest + b) + tail == pre + a + (rest + b + tail);
    ReachPart(done, ts, |f.window|, k);
    TokensInflate(m, ll, ld, c, f, done, part, pre, rest + b + tail);
  }

  /** A block with enough bits behind it is proper input for the loop. */
  lemma BlockProper(m: Maps, ll: seq<nat>, ld: seq<nat>, c: Codes, f: Flow, done: seq<Token>, ts: seq<Token>,
                    pre: seq<bool>, tail: seq<bool>)
    requires Coding(m, ll, ld) && AllCodable(m, ll, ld, ts) && Has(ll, END_BLOCK) && Decoding(ll, ld, c, HasCopy(ts))
    requires FlowOk(f) && Held(f) && f.out == Values(Expand(done)) && InReach(done, ts, |f.window|)
    requires |tail| >= HuffmanCodes.MAX_BITS
    ensures InflateBlock.Proper(c, pre + BlockBits(m, ll, ld, ts) + tail, Progress(f, |pre|, More))
  {
    hide Coding, AllCodable, Decoding, BlockBits, Held, Expand, InReach, Inflated;
    var bits, start := pre + BlockBits(m, ll, ld, ts) + tail, Progress(f, |pre|, More);
    BlockInflates(m, ll, ld, c, f, done, ts, pre, tail);
    forall k: nat | InflateBlock.AtHand(bits, Inflated(c, bits, start, k))
      ensures Inflated(c, bits, start, k + 1).status != Unspecified
    {
      if k < |ts| {
        PartInflates(m, ll, ld, c, f, done, ts, pre, tail, k + 1);
      } else {
        Stopped(c, bits, start, |ts| + 1, k + 1);
      }
    }
  }

  /**
   * The loop of inflate_codes, which stops at the end of a block or when its input may not suffice,
   * stops at the end of this one with all of its text put out.
   */
  lemma BlockPutOut(m: Maps, ll: seq<nat>, ld: seq<nat>, c: Codes, f: Flow, done: seq<Token>, ts: seq<Token>,
                    pre: seq<bool>, tail: seq<bool>, count: nat)
    requires Coding(m, ll, ld) && AllCodable(m, ll, ld, ts) && Has(ll, END_BLOCK) && Decoding(ll, ld, c, HasCopy(ts))
    requires FlowOk(f) && Held(f) && f.out == Values(Expand(done)) && InReach(done, ts, |f.window|)
    requires |tail| >= InflateCodes.MAX_ASKED
    requires var bits := pre + BlockBits(m, ll, ld, ts) + tail;
      var p := Inflated(c, bits, Progress(f, |pre|, More), count);
      p.status == More ==> |bits| - p.pos < InflateCodes.MAX_ASKED
    ensures var bits := pre + BlockBits(m, ll, ld, ts) + tail;
      var p := Inflated(c, bits, Progress(f, |pre|, More), count);
      && p.status == EndOfBlock && p.pos == |bits| - |tail|
      && FlowOk(p.f) && Held(p.f) && p.f.out == Values(Expand(done + ts))
  {
    hide Coding, AllCodable, Decoding, BlockBits, Held, Expand, InReach, Inflated;
    var bits, start := pre + BlockBits(m, ll, ld, ts) + tail, Progress(f, |pre|, More);
    BlockInflates(m, ll, ld, c, f, done, ts, pre, tail);
    if count <= |ts| {
      PartInflates(m, ll, ld, c, f, done, ts, pre, tail, count);
    } else {
      Stopped(c, bits, start, |ts| + 1, count);
    }
  }
}
