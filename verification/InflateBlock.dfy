/** inflate_codes for a whole block: symbols from the bit buffer, octets round the window and out. */
module InflateBlock {
  import opened Bits
  import opened HuffmanTables
  import opened InflateSpec
  import opened InflateCodes
  import opened InflateFlow
  import InflateWindow

  /** The DIST and DISTEXT states. */
  method ReadDistance(c: Codes, input: seq<byte>, r0: Reader, len: nat, ghost bits: seq<bool>)
    returns (item: Item, r: Reader)
    requires Sound(c.td, c.bd) && Neat(c.td, c.bd) && bits == Stream(input) && Ahead(r0, bits, 28)
    requires ReadDist(bits, len, Walk(c.td, 0, c.bd, bits, Pos(r0))).item != Cut
    ensures Ahead(r, bits, 0) && Pos(r0) <= Pos(r)
    ensures ReadDist(bits, len, Walk(c.td, 0, c.bd, bits, Pos(r0))) == Read(item, Pos(r))
  {
    hide ReaderOk, Walk, Sound, Neat, Stream, Extra, DistExtra, DistBase;
    var w: Result;
    SoundAt(c.td, c.bd, bits, Pos(r0));
    w, r := SlowWalk(c.td, c.bd, input, r0, bits);
    if w.BadCode? {
      return Bad, r;
    }
    DistanceLimits(w.symbol);
    r := Grab(r, input, DistExtra(w.symbol), bits);
    var extra;
    extra, r := Take(r, DistExtra(w.symbol), bits);
    item := Match(DistBase(w.symbol) + extra, len);
  }

  /** One item, through the states from LEN on. */
  method ReadOne(c: Codes, input: seq<byte>, r0: Reader, ghost bits: seq<bool>) returns (item: Item, r: Reader)
    requires CodesOk(c) && bits == Stream(input) && Ahead(r0, bits, MAX_ASKED)
    requires ReadItem(c, bits, Pos(r0)).item != Cut
    ensures Ahead(r, bits, 0) && ReadItem(c, bits, Pos(r0)) == Read(item, Pos(r))
    ensures item.Byte? || item.Match? ==> Pos(r0) < Pos(r)
  {
    hide ReaderOk, Walk, Sound, Neat, HasLengths, Stream, Extra, LengthExtra, LengthBase, ReadDist;
    var w: Result;
    SoundAt(c.tl, c.bl, bits, Pos(r0));
    w, r := SlowWalk(c.tl, c.bl, input, r0, bits);
    if w.BadCode? {
      return Bad, r;
    }
    if w.symbol < LITERALS {
      return Byte(w.symbol), r;
    }
    if w.symbol == END_BLOCK {
      return End, r;
    }
    var i := w.symbol - 257;
    if LengthExtra(i) == INVALID {
      return Bad, r;
    }
    LengthLimits(i);
    MetLength(c, bits, Pos(r0));
    r := Grab(r, input, LengthExtra(i), bits);
    var extra;
    extra, r := Take(r, LengthExtra(i), bits);
    item, r := ReadDistance(c, input, r, LengthBase(i) + extra, bits);
  }

  /** Every item whose bits are at hand lies in the alphabets and reaches no further back than the window. */
  ghost predicate Proper(c: Codes, bits: seq<bool>, p: Progress)
    requires FlowOk(p.f)
  {
    forall k: nat :: AtHand(bits, Inflated(c, bits, p, k)) ==> Inflated(c, bits, p, k + 1).status != Unspecified
  }

  predicate AtHand(bits: seq<bool>, p: Progress) { p.status == More && p.pos + MAX_ASKED <= |bits| }

  lemma ProperAt(c: Codes, bits: seq<bool>, p: Progress, k: nat)
    requires FlowOk(p.f) && Proper(c, bits, p) && AtHand(bits, Inflated(c, bits, p, k))
    ensures var m := Inflated(c, bits, p, k);
      && Inflated(c, bits, p, k + 1) == Apply(m.f, ReadItem(c, bits, m.pos))
      && Apply(m.f, ReadItem(c, bits, m.pos)).status != Unspecified
  {
    hide Apply, ReadItem;
    InflatedOn(c, bits, p, k);
  }

  lemma ItemIs(f: Flow, r: Read)
    requires FlowOk(f) && Apply(f, r).status != Unspecified
    ensures r.item != Cut && (r.item.Match? ==> 1 <= r.item.dist <= |f.window|)
  {
  }

  /**
   * Symbol after symbol until the block ends, the data is bad, or the input may not suffice for the
   * next one; the window is flushed whenever it is full, also in the middle of a copy.
   */
  method WholeBlock(c: Codes, input: seq<byte>, r0: Reader, w: InflateWindow.OutputWindow, ghost bits: seq<bool>)
    returns (r: Reader, status: Status, ghost count: nat)
    requires CodesOk(c) && bits == Stream(input) && Ahead(r0, bits, 0) && w.Valid()
    requires Proper(c, bits, Progress(w.AsFlow(), Pos(r0), More))
    modifies w
    ensures Ahead(r, bits, 0) && w.Valid()
    ensures Inflated(c, bits, Progress(old(w.AsFlow()), Pos(r0), More), count) == Progress(w.AsFlow(), Pos(r), status)
    ensures status == More ==> |bits| - Pos(r) < MAX_ASKED
  {
    hide CodesOk, Stream, ReaderOk, Proper, ReadItem, InflateWindow.Pending, InflateWindow.CheckOk, Emit, EmitCopy;
    ghost var start := Progress(w.AsFlow(), Pos(r0), More);
    r, status, count := r0, More, 0;
    while status == More && 8 * (|input| - r.p) + r.k >= MAX_ASKED
      invariant Ahead(r, bits, 0) && w.Valid()
      invariant Inflated(c, bits, start, count) == Progress(w.AsFlow(), Pos(r), status)
      decreases status == More, |bits| - Pos(r)
    {
      ProperAt(c, bits, start, count);
      ItemIs(w.AsFlow(), ReadItem(c, bits, Pos(r)));
      var item;
      item, r := ReadOne(c, input, r, bits);
      match item {
        case Byte(b) => w.OutByte(b);
        case Match(dist, len) => w.CopyMatch(dist, len);
        case End => status := EndOfBlock;
        case Bad => status := DataError;
      }
      count := count + 1;
    }
  }
}
