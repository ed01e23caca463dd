/** A whole stream: the input of deflate comes out of inflate. */
module DeflateStream {
  import opened Bits
  import opened HuffmanCodes
  import opened HuftDecode
  import opened InflateSpec
  import opened InflateFlow
  import opened Lz77Spec
  import opened Lz77Match
  import opened Lz77
  import opened DeflateCodes
  import opened DeflateBlock
  import opened DeflateInflate
  import opened DeflateTrees

  /** A block: its tokens, the trees it is sent with, the tables it is read with, and the bits before its body. */
  datatype Block = Block(tokens: seq<Token>, ll: seq<nat>, ld: seq<nat>, codes: Codes, head: seq<bool>)

  ghost predicate BlockOk(m: Maps, b: Block) {
    && Coding(m, b.ll, b.ld) && AllCodable(m, b.ll, b.ld, b.tokens) && Has(b.ll, END_BLOCK)
    && Decoding(b.ll, b.ld, b.codes, HasCopy(b.tokens))
  }

  // One block with the trees of both ends.

  /** What deflate_fast and deflate_slow tally can be sent. */
  lemma TalliedSent(tokens: seq<Token>, w: nat)
    requires MIN_LOOKAHEAD <= w <= MAX_DIST && TokensOk(tokens, MaxDist(w))
    ensures TokensSent(tokens)
  {
    hide Grounded;
    forall i | 0 <= i < |tokens| ensures TokenSent(tokens[i]) {
      assert TokenOk(tokens[i], MaxDist(w));
    }
  }

  /** A complete tree has codes. */
  lemma CompleteUsed(lens: seq<nat>) returns (k: nat)
    requires TreeOk(lens) && Complete(lens)
    ensures Has(lens, k)
  {
    hide Start, Fits, Pow2, Cnt;
    var c, g := Counts(lens), HuffmanCodes.MAX_BITS;
    var n, r := Locate(c, g, 0, g + 1);
    HoldsIs(c, g, 0, n, r);
    k := FindRank(lens, n, 0);
  }

  /** inflate_trees_dynamic accepts the lengths of the trees deflate sends, up to the last that is not zero. */
  lemma SentAccepted(lens: seq<nat>, n: nat)
    requires TreeOk(lens) && Complete(lens) && Trimmed(lens, n)
    ensures LensOk(lens[..n]) && Accepted(lens[..n])
  {
    hide Fits, Complete, Counts, OneBit;
    TrimmedCounts(lens, n);
    var k := CompleteUsed(lens);
    SomeUsed(lens[..n], k);
  }

  /** The trees of SendBlock and the tables InflateTrees makes of the lengths received fit together. */
  lemma DynamicOk(m: Maps, ll: seq<nat>, nl: nat, ld: seq<nat>, nd: nat, c: Codes, ts: seq<Token>, head: seq<bool>)
    requires Coding(m, ll, ld) && AllCodable(m, ll, ld, ts) && Has(ll, END_BLOCK)
    requires Trimmed(ll, nl) && TreeOk(ll[..nl]) && Inverts(ll[..nl], c.tl, c.bl)
    requires Trimmed(ld, nd) && TreeOk(ld[..nd]) && (Cnt(ld[..nd], 0) < nd ==> Inverts(ld[..nd], c.td, c.bd))
    ensures BlockOk(m, Block(ts, ll, ld, c, head))
  {
    hide Inverts, TreeOk, Cnt, MapsOk;
    CodingIs(m, ll, ld);
    TrimmedInverts(ll, nl, c.tl, c.bl);
    if HasCopy(ts) {
      CopyHasCode(m, ll, ld, nd, ts);
      TrimmedInverts(ld, nd, c.td, c.bd);
    }
  }

  lemma CopyHasCode(m: Maps, ll: seq<nat>, ld: seq<nat>, nd: nat, ts: seq<Token>)
    requires MapsOk(m) && AllCodable(m, ll, ld, ts) && HasCopy(ts) && Trimmed(ld, nd)
    ensures Cnt(ld[..nd], 0) < nd
  {
    hide MapsOk, Cnt;
    var i :| 0 <= i < |ts| && ts[i].Copy?;
    assert Codable(m, ll, ld, ts[i]);
    SomeUsed(ld[..nd], DistSymbol(m, ts[i].dist));
  }

  // Block after block.

  ghost predicate BlocksOk(m: Maps, blocks: seq<Block>) { forall i :: 0 <= i < |blocks| ==> BlockOk(m, blocks[i]) }

  ghost function AllTokens(blocks: seq<Block>): seq<Token> {
    if blocks == [] then [] else AllTokens(blocks[..|blocks| - 1]) + blocks[|blocks| - 1].tokens
  }

  ghost function BodyBits(m: Maps, b: Block): seq<bool>
    requires BlockOk(m, b)
  {
    b.head + BlockBits(m, b.ll, b.ld, b.tokens)
  }

  ghost function StreamBits(m: Maps, blocks: seq<Block>): seq<bool>
    requires BlocksOk(m, blocks)
  {
    if blocks == [] then [] else StreamBits(m, blocks[..|blocks| - 1]) + BodyBits(m, blocks[|blocks| - 1])
  }

  /** The body of a block, behind its head. */
  ghost function InflateBody(bits: seq<bool>, b: Block, p: Progress): (r: Progress)
    requires FlowOk(p.f)
    ensures FlowOk(r.f) && |r.f.window| == |p.f.window|
  {
    Inflated(b.codes, bits, Progress(p.f, p.pos + |b.head|, More), |b.tokens| + 1)
  }

  /** The blocks in turn. */
  ghost function InflateAll(bits: seq<bool>, blocks: seq<Block>, p: Progress): (r: Progress)
    requires FlowOk(p.f)
    ensures FlowOk(r.f) && |r.f.window| == |p.f.window|
  {
    if blocks == [] then p
    else InflateBody(bits, blocks[|blocks| - 1], InflateAll(bits, blocks[..|blocks| - 1], p))
  }

  /** All text so far has come out, and the window holds its end. */
  ghost predicate OutIs(p: Progress, tokens: seq<Token>)
    requires FlowOk(p.f)
  {
    Held(p.f) && p.f.out == Values(Expand(tokens))
  }

  lemma BodyInflates(m: Maps, b: Block, p: Progress, done: seq<Token>, pre: seq<bool>, tail: seq<bool>)
    requires BlockOk(m, b) && FlowOk(p.f) && OutIs(p, done) && InReach(done, b.tokens, |p.f.window|)
    requires p.pos == |pre| && |tail| >= HuffmanCodes.MAX_BITS
    ensures var r := InflateBody(pre + BodyBits(m, b) + tail, b, p);
      r.pos == |pre + BodyBits(m, b)| && r.status == EndOfBlock && OutIs(r, done + b.tokens)
  {
    hide Held, Expand, Coding, AllCodable, Decoding, BlockBits, InReach;
    var body := BlockBits(m, b.ll, b.ld, b.tokens);
    assert pre + (b.head + body) + tail == (pre + b.head) + body + tail;
    BlockInflates(m, b.ll, b.ld, b.codes, p.f, done, b.tokens, pre + b.head, tail);
  }

  lemma ReachFront(blocks: seq<Block>, size: nat)
    requires InReach([], AllTokens(blocks), size) && blocks != []
    ensures var front, b := blocks[..|blocks| - 1], blocks[|blocks| - 1];
      InReach([], AllTokens(front), size) && InReach(AllTokens(front), b.tokens, size)
  {
    hide Grounded, Near;
    var front, b := AllTokens(blocks[..|blocks| - 1]), blocks[|blocks| - 1].tokens;
    assert [] + (front + b) == front + b && [] + front == front;
    GroundedFront(front, b);
    NearParts(front, b, size);
  }

  lemma {:induction false} BlocksInflate(m: Maps, blocks: seq<Block>, f: Flow, tail: seq<bool>)
    requires BlocksOk(m, blocks) && FlowOk(f) && f.out == [] && InReach([], AllTokens(blocks), |f.window|)
    requires |tail| >= HuffmanCodes.MAX_BITS
    ensures var bits := StreamBits(m, blocks);
      var r := InflateAll(bits + tail, blocks, Progress(f, 0, More));
      r.pos == |bits| && OutIs(r, AllTokens(blocks)) && (blocks != [] ==> r.status == EndOfBlock)
    decreases |blocks|
  {
    hide Expand, BlockOk, InReach, BodyBits, InflateBody, Held;
    if blocks == [] {
      NothingOut(f);
    } else {
      var k := |blocks| - 1;
      var front, b := blocks[..k], blocks[k];
      ReachFront(blocks, |f.window|);
      var pre, body := StreamBits(m, front), BodyBits(m, b);
      assert pre + body + tail == pre + (body + tail);
      BlocksInflate(m, front, f, body + tail);
      var p := InflateAll(pre + body + tail, front, Progress(f, 0, More));
      BodyInflates(m, b, p, AllTokens(front), pre, tail);
    }
  }

  lemma NothingOut(f: Flow)
    requires FlowOk(f) && f.out == []
    ensures Held(f) && f.out == Values(Expand([]))
  {
  }

  /**
   * Whatever blocks the tokens of deflate_fast or deflate_slow are cut into, with the trees of each
   * block and any window no smaller than theirs: inflate puts out the input.
   */
  lemma StreamInflates(m: Maps, blocks: seq<Block>, input: seq<bv8>, w: nat, f: Flow, tail: seq<bool>)
    requires w >= MIN_LOOKAHEAD && TokensOk(AllTokens(blocks), MaxDist(w)) && Expand(AllTokens(blocks)) == input
    requires BlocksOk(m, blocks) && FlowOk(f) && f.out == [] && |f.window| >= w && |tail| >= HuffmanCodes.MAX_BITS
    ensures InflateAll(StreamBits(m, blocks) + tail, blocks, Progress(f, 0, More)).f.out == Values(input)
  {
    hide Expand, BlockOk, Held, StreamBits, InflateAll, AllTokens;
    var tokens := AllTokens(blocks);
    assert [] + tokens == tokens;
    forall i | 0 <= i < |tokens| && tokens[i].Copy? ensures tokens[i].dist <= |f.window| {
      assert TokenOk(tokens[i], MaxDist(w));
    }
    BlocksInflate(m, blocks, f, tail);
  }
}
