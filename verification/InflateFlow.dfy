/**
 * Inflating a block of any length: the octets go round the window and out, while the copies read
 * what the window still holds.
 */
module InflateFlow {
  import opened Bits
  import opened HuffmanTables
  import opened InflateSpec

  // One symbol with its distance, apart from the window.

  datatype Item = Byte(b: byte) | Match(dist: nat, len: nat) | End | Bad | Cut

  /** An item and where the bits behind it start. */
  datatype Read = Read(item: Item, pos: nat)

  function ReadDist(bits: seq<bool>, len: nat, w: Result): Read {
    match w
    case Symbol(n, pos) =>
      if n < DIST_CODES && pos + DistExtra(n) <= |bits| then
        Read(Match(DistBase(n) + Extra(bits, pos, DistExtra(n)), len), pos + DistExtra(n))
      else Read(Cut, pos)
    case BadCode(pos) => Read(Bad, pos)
    case Stuck => Read(Cut, 0)
  }

  function ReadLen(c: Codes, bits: seq<bool>, w: Result): Read {
    match w
    case Symbol(n, pos) =>
      if n < LITERALS then Read(Byte(n), pos)
      else if n == END_BLOCK then Read(End, pos)
      else if n - 257 < LENGTH_CODES && LengthExtra(n - 257) == INVALID then Read(Bad, pos)
      else if n - 257 < LENGTH_CODES && pos + LengthExtra(n - 257) <= |bits| then
        ReadDist(bits, LengthBase(n - 257) + Extra(bits, pos, LengthExtra(n - 257)),
                 Walk(c.td, 0, c.bd, bits, pos + LengthExtra(n - 257)))
      else Read(Cut, pos)
    case BadCode(pos) => Read(Bad, pos)
    case Stuck => Read(Cut, 0)
  }

  function ReadItem(c: Codes, bits: seq<bool>, pos: nat): Read { ReadLen(c, bits, Walk(c.tl, 0, c.bl, bits, pos)) }

  // The window as octets flow through it.

  /** What has been put out, and the window with the place written next. */
  datatype Flow = Flow(window: seq<byte>, q: nat, out: seq<byte>)

  predicate FlowOk(f: Flow) { |f.window| > 0 && f.q <= |f.window| }

  /** The next place, round the end of the window. */
  function Place(f: Flow): (at: nat)
    requires FlowOk(f)
    ensures at < |f.window|
  {
    if f.q == |f.window| then 0 else f.q
  }

  function Emit(f: Flow, x: byte): (r: Flow)
    requires FlowOk(f)
    ensures FlowOk(r) && |r.window| == |f.window|
  {
    Flow(f.window[Place(f) := x], Place(f) + 1, f.out + [x])
  }

  function EmitCopy(f: Flow, dist: nat, len: nat): (r: Flow)
    requires FlowOk(f) && 1 <= dist <= |f.window|
    ensures FlowOk(r) && |r.window| == |f.window|
    decreases len
  {
    if len == 0 then f
    else EmitCopy(Emit(f, f.window[Source(|f.window|, Place(f), dist)]), dist, len - 1)
  }

  /** How far the decoding of a block has come. */
  datatype Progress = Progress(f: Flow, pos: nat, status: Status)

  function Apply(f: Flow, r: Read): (p: Progress)
    requires FlowOk(f)
    ensures FlowOk(p.f) && |p.f.window| == |f.window|
  {
    match r.item
    case Byte(b) => Progress(Emit(f, b), r.pos, More)
    case Match(dist, len) =>
      if 1 <= dist <= |f.window| then Progress(EmitCopy(f, dist, len), r.pos, More)
      else Progress(f, r.pos, Unspecified)
    case End => Progress(f, r.pos, EndOfBlock)
    case Bad => Progress(f, r.pos, DataError)
    case Cut => Progress(f, r.pos, Unspecified)
  }

  /** count items, or up to the end of the block or an error. */
  function Inflated(c: Codes, bits: seq<bool>, p: Progress, count: nat): (r: Progress)
    requires FlowOk(p.f)
    ensures FlowOk(r.f) && |r.f.window| == |p.f.window|
    decreases count
  {
    if count == 0 || p.status != More then p
    else Inflated(c, bits, Apply(p.f, ReadItem(c, bits, p.pos)), count - 1)
  }

  lemma {:induction false} InflatedOn(c: Codes, bits: seq<bool>, p: Progress, count: nat)
    requires FlowOk(p.f) && Inflated(c, bits, p, count).status == More
    ensures var m := Inflated(c, bits, p, count);
      Inflated(c, bits, p, count + 1) == Apply(m.f, ReadItem(c, bits, m.pos))
    decreases count
  {
    hide Apply, ReadItem;
    if count > 0 {
      InflatedOn(c, bits, Apply(p.f, ReadItem(c, bits, p.pos)), count - 1);
    }
  }

  // Where there is room to the end of the window, this is what the decoders do there.

  /** The window, the place and the bits consumed are those of the decoders' specification. */
  predicate Agrees(p: Progress, o: Out) {
    p.f.window == o.window && p.f.q == o.q && p.pos == o.pos && p.status == o.status
  }

  lemma {:induction false} CopyAgrees(f: Flow, dist: nat, len: nat)
    requires FlowOk(f) && 1 <= dist <= |f.window| && f.q + len <= |f.window|
    ensures var r := EmitCopy(f, dist, len); r.window == CopyWindow(f.window, f.q, dist, len) && r.q == f.q + len
    decreases len
  {
    if len > 0 {
      CopyAgrees(Emit(f, f.window[Source(|f.window|, f.q, dist)]), dist, len - 1);
    }
  }

  lemma OneAgrees(c: Codes, bits: seq<bool>, f: Flow, pos: nat)
    requires FlowOk(f) && One(c, bits, f.window, f.q, pos).status != Unspecified
    ensures Agrees(Apply(f, ReadItem(c, bits, pos)), One(c, bits, f.window, f.q, pos))
  {
    hide Walk, LengthExtra, LengthBase, DistExtra, DistBase, CopyWindow, EmitCopy, Extra;
    var r := ReadItem(c, bits, pos);
    if r.item.Match? && 1 <= r.item.dist <= |f.window| && f.q + r.item.len <= |f.window| {
      CopyAgrees(f, r.item.dist, r.item.len);
    }
  }

  lemma {:induction false} RunAgrees(c: Codes, bits: seq<bool>, p: Progress, o: Out, count: nat)
    requires FlowOk(p.f) && Agrees(p, o) && Run(c, bits, o, count).status != Unspecified
    ensures Agrees(Inflated(c, bits, p, count), Run(c, bits, o, count))
    decreases count
  {
    hide One, Apply, ReadItem;
    if count > 0 && o.status == More {
      var o' := One(c, bits, o.window, o.q, o.pos);
      OneAgrees(c, bits, p.f, p.pos);
      RunAgrees(c, bits, Apply(p.f, ReadItem(c, bits, p.pos)), o', count - 1);
    }
  }

  // What the window holds.

  /** The window holds what was put out last, as far as it reaches. */
  predicate Held(f: Flow)
    requires FlowOk(f)
  {
    forall d :: 1 <= d <= |f.window| && d <= |f.out| ==> HeldAt(f, d)
  }

  predicate HeldAt(f: Flow, d: nat)
    requires FlowOk(f) && 1 <= d <= |f.window| && d <= |f.out|
  {
    f.window[Source(|f.window|, Place(f), d)] == f.out[|f.out| - d]
  }

  lemma EmitHeld(f: Flow, x: byte)
    requires FlowOk(f) && Held(f)
    ensures Held(Emit(f, x))
  {
    var r := Emit(f, x);
    forall d | 1 <= d <= |r.window| && d <= |r.out| ensures HeldAt(r, d) {
      if d > 1 {
        assert HeldAt(f, d - 1);
      }
    }
  }

  /** A copy of something that was put out and is still held. */
  lemma {:induction false} CopyHeld(f: Flow, dist: nat, len: nat)
    requires FlowOk(f) && Held(f) && 1 <= dist <= |f.window| && dist <= |f.out|
    ensures var r := EmitCopy(f, dist, len);
      && Held(r) && f.out <= r.out && |r.out| == |f.out| + len
      && forall i :: |f.out| <= i < |r.out| ==> r.out[i] == r.out[i - dist]
    decreases len
  {
    if len > 0 {
      hide Held;
      var x := f.window[Source(|f.window|, Place(f), dist)];
      HeldIs(f, dist);
      EmitHeld(f, x);
      var f2 := Emit(f, x);
      CopyHeld(f2, dist, len - 1);
      var r := EmitCopy(f, dist, len);
      assert f2.out <= r.out && r.out[|f.out|] == x && r.out[|f.out| - dist] == f.out[|f.out| - dist];
    }
  }

  lemma HeldIs(f: Flow, d: nat)
    requires FlowOk(f) && Held(f) && 1 <= d <= |f.window| && d <= |f.out|
    ensures f.window[Source(|f.window|, Place(f), d)] == f.out[|f.out| - d]
  {
    assert HeldAt(f, d);
  }
}
