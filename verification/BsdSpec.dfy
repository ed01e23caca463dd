/**
 BSD-Compress (Appendix A of RFC 1977) as functions on values.

 A dictionary is the sequence of (prefix, suffix) pairs in the order in which
 their codes were given out: pair k has code FIRST + k.  The three programs of
 modules/bsd-comp.c (compress, pretend to compress, decompress) are specified
 here; BsdCompress implements them on the hash table.
 */
module BsdSpec {
  import opened Bits
  import opened Wrappers

  const LAST := 255          // largest literal code
  const CLEAR := 256         // table clear output code
  const FIRST := 257         // first free code
  const INIT_BITS := 9
  const MAX_BITS := 15
  const CHECK_GAP := 10000
  const RATIO_SCALE := 256
  const RATIO_MAX := 0x7fffff
  const HDRLEN := 4          // address, control, protocol
  const OVHD := 2            // sequence number
  const PPP_COMP: byte := 0xfd

  datatype Entry = Entry(prefix: nat, suffix: byte)
  type Dict = seq<Entry>

  function MaxCode(bits: nat): nat { Pow2(bits) - 1 }

  function MaxEnt(d: Dict): nat { FIRST - 1 + |d| }

  predicate IsCode(d: Dict, code: nat) { code <= LAST || FIRST <= code < FIRST + |d| }

  /** Every entry extends a literal or an earlier entry. */
  predicate WellFormed(d: Dict)
  {
    forall k | 0 <= k < |d| :: d[k].prefix <= LAST || FIRST <= d[k].prefix < FIRST + k
  }

  /** The string a code stands for. */
  function Expand(d: Dict, code: nat): (text: seq<byte>)
    requires WellFormed(d) && IsCode(d, code)
    ensures |text| > 0
    decreases code
  {
    if code <= LAST then [code]
    else
      var e := d[code - FIRST];
      Expand(d, e.prefix) + [e.suffix]
  }

  /** Entries added later do not change what a code stands for. */
  lemma {:induction false} ExpandExtend(d: Dict, d': Dict, code: nat)
    requires WellFormed(d) && WellFormed(d') && d <= d' && IsCode(d, code)
    ensures Expand(d', code) == Expand(d, code)
    decreases code
  {
    if code > LAST {
      ExpandExtend(d, d', d[code - FIRST].prefix);
    }
  }

  /** The first code given to the pair (prefix, suffix), if any. */
  function Find(d: Dict, prefix: nat, suffix: byte): (r: Option<nat>)
    ensures r.Some? ==>
              && FIRST <= r.value < FIRST + |d|
              && d[r.value - FIRST] == Entry(prefix, suffix)
              && forall k | 0 <= k < r.value - FIRST :: d[k] != Entry(prefix, suffix)
    ensures r.None? ==> Entry(prefix, suffix) !in d
  {
    if |d| == 0 then None
    else
      var n := |d| - 1;
      var r := Find(d[..n], prefix, suffix);
      if r.Some? then r
      else if d[n] == Entry(prefix, suffix) then Some(FIRST + n)
      else None
  }

  // ----- Per-link state -----

  /** The fields of struct bsd_db that decide behaviour; max_ent is MaxEnt(dict). */
  datatype Db = Db(
    maxbits: nat,
    seqno: nat,
    dict: Dict,
    nBits: nat,
    inCount: nat,
    bytesOut: nat,
    ratio: nat,
    checkpoint: nat)

  predicate DictOk(maxbits: nat, d: Dict)
  {
    && INIT_BITS <= maxbits <= MAX_BITS
    && WellFormed(d)
    && MaxEnt(d) <= MaxCode(maxbits)
  }

  /** Code width between packets: every code fits, and the next code given out will too. */
  predicate WidthOk(maxbits: nat, d: Dict, width: nat)
  {
    && INIT_BITS <= width <= maxbits
    && (MaxEnt(d) < MaxCode(width) || (width == maxbits && MaxEnt(d) == MaxCode(maxbits)))
  }

  predicate DbOk(db: Db)
  {
    && DictOk(db.maxbits, db.dict)
    && WidthOk(db.maxbits, db.dict, db.nBits)
    && db.seqno < 0x10000
  }

  function Initial(maxbits: nat): Db
  {
    Db(maxbits, 0, [], INIT_BITS, 0, 0, 0, CHECK_GAP)
  }

  function Clear(db: Db): Db
  {
    db.(dict := [], nBits := INIT_BITS, ratio := 0, bytesOut := 0, inCount := 0, checkpoint := CHECK_GAP)
  }

  function Reset(db: Db): Db { Clear(db).(seqno := 0) }

  function NextSeq(db: Db): Db { db.(seqno := (db.seqno + 1) % 0x10000) }

  function Age(db: Db): (r: Db)
    ensures r.inCount <= db.inCount && r.bytesOut <= db.bytesOut
  {
    if db.inCount >= RATIO_MAX || db.bytesOut >= RATIO_MAX
    then db.(inCount := db.inCount - db.inCount / 4, bytesOut := db.bytesOut - db.bytesOut / 4)
    else db
  }

  /** Compression ratio with eight fractional bits. */
  function Ratio(inCount: nat, bytesOut: nat): nat
  {
    var scaled := inCount * RATIO_SCALE;
    if bytesOut != 0 then scaled / bytesOut else scaled
  }

  function Renew(db: Db): Db
  {
    var aged := Age(db);
    aged.(checkpoint := aged.inCount + CHECK_GAP)
  }

  /** The ratio check at the end of a packet; the flag says the dictionary was cleared. */
  function Check(db: Db): (r: (Db, bool))
    ensures r.1 ==> r.0 == Clear(db) && MaxEnt(db.dict) >= MaxCode(db.maxbits)
    ensures !r.1 ==> r.0.dict == db.dict && r.0.nBits == db.nBits
    ensures r.0.maxbits == db.maxbits && r.0.seqno == db.seqno
  {
    if db.inCount < db.checkpoint then (db, false)
    else
      var b := Renew(db);
      if MaxEnt(b.dict) >= MaxCode(b.maxbits) then
        var ratio := Ratio(b.inCount, b.bytesOut);
        if ratio < b.ratio || ratio < RATIO_SCALE then (Clear(b), true)
        else (b.(ratio := ratio), false)
      else (b, false)
  }

  // ----- Compressing -----

  /** A packet partly compressed: `ent` is the code of the string not yet sent, `bits` what was sent. */
  datatype Enc = Enc(dict: Dict, width: nat, ent: nat, bits: seq<bool>)

  predicate EncOk(maxbits: nat, e: Enc)
  {
    && DictOk(maxbits, e.dict)
    && INIT_BITS <= e.width <= maxbits
    && MaxEnt(e.dict) <= MaxCode(e.width)
    && IsCode(e.dict, e.ent)
  }

  function Emit(maxbits: nat, e: Enc): (bits: seq<bool>)
    requires EncOk(maxbits, e)
    ensures |bits| == |e.bits| + e.width
  {
    Pow2Monotonic(INIT_BITS, e.width);
    assert Pow2(INIT_BITS) == 512;
    e.bits + ToBits(e.ent, e.width)
  }

  lemma WidthRoom(maxbits: nat, d: Dict, width: nat)
    requires INIT_BITS <= width <= maxbits
    requires MaxCode(width) <= MaxEnt(d) < MaxCode(maxbits)
    ensures width < maxbits
    ensures MaxEnt(d) == MaxCode(width) ==> MaxEnt(d) + 1 < MaxCode(width + 1)
  {
    Pow2Monotonic(INIT_BITS, width);
    assert Pow2(INIT_BITS) == 512;
  }

  function EncStep(maxbits: nat, e: Enc, c: byte): (r: Enc)
    requires EncOk(maxbits, e)
    ensures EncOk(maxbits, r)
  {
    var found := Find(e.dict, e.ent, c);
    if found.Some? then e.(ent := found.value)
    else
      var bits := Emit(maxbits, e);
      if MaxEnt(e.dict) < MaxCode(maxbits) then
        var width := if MaxEnt(e.dict) >= MaxCode(e.width) then e.width + 1 else e.width;
        if MaxEnt(e.dict) >= MaxCode(e.width) then
          WidthRoom(maxbits, e.dict, e.width);
          Enc(e.dict + [Entry(e.ent, c)], width, c, bits)
        else
          Enc(e.dict + [Entry(e.ent, c)], width, c, bits)
      else Enc(e.dict, e.width, c, bits)
  }

  function EncRun(maxbits: nat, e: Enc, data: seq<byte>): (r: Enc)
    requires EncOk(maxbits, e)
    ensures EncOk(maxbits, r)
  {
    if |data| == 0 then e
    else EncStep(maxbits, EncRun(maxbits, e, data[..|data| - 1]), data[|data| - 1])
  }

  function EncStart(db: Db, proto: byte): (e: Enc)
    requires DbOk(db)
    ensures EncOk(db.maxbits, e)
  {
    Enc(db.dict, db.nBits, proto, [])
  }

  /** The code width for the next packet. */
  function EndWidth(maxbits: nat, d: Dict, width: nat): nat
  {
    if MaxEnt(d) >= MaxCode(width) && MaxEnt(d) < MaxCode(maxbits) then width + 1 else width
  }

  /** The state after the data codes of a packet, before the ratio check. */
  function Tally(db: Db, d: Dict, width: nat, uncompressed: nat, compressed: nat): Db
  {
    db.(dict := d, nBits := width, inCount := db.inCount + uncompressed, bytesOut := db.bytesOut + compressed)
  }

  /** The counters after the data codes of a packet have been sent, before the ratio check. */
  function Counted(db: Db, e: Enc, uncompressed: nat): Db
    requires EncOk(db.maxbits, e)
  {
    Tally(NextSeq(db), e.dict, e.width, uncompressed, (|Emit(db.maxbits, e)| + 7) / 8)
  }

  /** The end of a packet: the new state and all bits that are sent, with CLEAR if the dictionary was cleared. */
  function Conclude(db: Db, e: Enc, uncompressed: nat): (r: (Db, seq<bool>))
    requires EncOk(db.maxbits, e)
    ensures DbOk(r.0) && r.0.maxbits == db.maxbits
  {
    var bits := Emit(db.maxbits, e);
    var (checked, cleared) := Check(Counted(db, e, uncompressed));
    assert Pow2(INIT_BITS) == 512;
    Pow2Monotonic(INIT_BITS, e.width);
    if cleared then
      Pow2Monotonic(INIT_BITS, db.maxbits);
      (checked, bits + ToBits(CLEAR, e.width))
    else
      EndWidthOk(db.maxbits, e.dict, e.width);
      (checked.(nBits := EndWidth(db.maxbits, e.dict, e.width)), bits)
  }

  /** What compressing, or pretending to compress, a packet does. */
  function Absorb(db: Db, proto: byte, data: seq<byte>): (r: (Db, seq<bool>))
    requires DbOk(db)
    ensures DbOk(r.0) && r.0.maxbits == db.maxbits
  {
    Conclude(db, EncRun(db.maxbits, EncStart(db, proto), data), |data| + 1)
  }

  lemma ConcludeBits(db: Db, e: Enc, n: nat)
    requires EncOk(db.maxbits, e)
    ensures var sent := Emit(db.maxbits, e);
            var cleared := Check(Counted(db, e, n)).1;
            && CLEAR < Pow2(e.width)
            && (cleared ==> EndWidth(db.maxbits, e.dict, e.width) == e.width)
            && Conclude(db, e, n).1 == if cleared then sent + ToBits(CLEAR, e.width) else sent
  {
    Pow2Monotonic(INIT_BITS, e.width);
    assert Pow2(INIT_BITS) == 512;
  }

  lemma EndWidthOk(maxbits: nat, d: Dict, width: nat)
    requires INIT_BITS <= width <= maxbits
    requires MaxEnt(d) <= MaxCode(width)
    ensures WidthOk(maxbits, d, EndWidth(maxbits, d, width))
  {
    Pow2Monotonic(width, maxbits);
    if MaxEnt(d) >= MaxCode(width) && MaxEnt(d) < MaxCode(maxbits) {
      WidthRoom(maxbits, d, width);
    } else {
      WidthFull(maxbits, d, width);
    }
  }

  lemma WidthFull(maxbits: nat, d: Dict, width: nat)
    requires INIT_BITS <= width <= maxbits
    requires MaxEnt(d) <= MaxCode(width)
    requires MaxEnt(d) < MaxCode(width) || MaxEnt(d) >= MaxCode(maxbits)
    ensures WidthOk(maxbits, d, width)
  {
    if width < maxbits {
      Pow2Monotonic(width + 1, maxbits);
    }
  }

  function Protocol(pkt: seq<byte>): nat
    requires |pkt| >= HDRLEN
  {
    pkt[2] as nat * 256 + pkt[3]
  }

  predicate Compressible(pkt: seq<byte>)
  {
    |pkt| >= HDRLEN && 0x21 <= Protocol(pkt) <= 0xf9
  }

  function Min(a: nat, b: nat): nat { if a < b then a else b }

  /** The PPP header with the protocol changed, the sequence number, and the codes. */
  function CompressedPacket(address: byte, control: byte, seqno: nat, payload: seq<byte>): (msg: seq<byte>)
    requires seqno < 0x10000
    ensures |msg| == |payload| + HDRLEN + OVHD
    ensures msg[0] == address && msg[1] == control
    ensures msg[4] as nat * 256 + msg[5] == seqno
    ensures msg[HDRLEN + OVHD..] == payload
  {
    [address, control, 0, PPP_COMP, seqno / 256, seqno % 256] + payload
  }

  /** bsd_compress: new state, returned length and, if it is not too long, the compressed packet. */
  function Compress(db: Db, pkt: seq<byte>, maxolen: nat): (r: (Db, nat, Option<seq<byte>>))
    requires DbOk(db)
    ensures DbOk(r.0) && r.0.maxbits == db.maxbits
  {
    if !Compressible(pkt) then (db, 0, None)
    else
      var (db', bits) := Absorb(db, pkt[3], pkt[HDRLEN..]);
      var payload := Pack(PadOnes(bits));
      var total := |payload| + HDRLEN + OVHD;
      (db', total, if total > Min(maxolen, |pkt|) then None
                   else Some(CompressedPacket(pkt[0], pkt[1], db.seqno, payload)))
  }

  /** bsd_incomp: the receiver's dictionary update for a packet that came uncompressed. */
  function Incomp(db: Db, pkt: seq<byte>): (r: Db)
    requires DbOk(db)
    ensures DbOk(r) && r.maxbits == db.maxbits
  {
    if !Compressible(pkt) then db else Absorb(db, pkt[3], pkt[HDRLEN..]).0
  }

  // ----- Decompressing -----

  /** A packet partly decompressed: `prev` is the previous code (CLEAR at the start), `out` the text so far. */
  datatype Dec = Dec(dict: Dict, width: nat, prev: nat, out: seq<byte>)

  predicate DecOk(maxbits: nat, s: Dec)
  {
    && DictOk(maxbits, s.dict)
    && WidthOk(maxbits, s.dict, s.width)
    && (s.prev == CLEAR || IsCode(s.dict, s.prev))
  }

  /** The codes the decoder has a meaning for: those in the dictionary and the one about to enter it. */
  predicate Decodable(maxbits: nat, s: Dec, code: nat)
  {
    && code != CLEAR
    && code <= MaxCode(maxbits)
    && (code <= MaxEnt(s.dict) || (code == MaxEnt(s.dict) + 1 && s.prev != CLEAR))
  }

  /** The text of one code; the second case is the KwKwK string. */
  function CodeText(maxbits: nat, s: Dec, code: nat): (text: seq<byte>)
    requires DecOk(maxbits, s) && Decodable(maxbits, s, code)
    ensures |text| > 0
  {
    if code <= MaxEnt(s.dict) then Expand(s.dict, code)
    else
      var t := Expand(s.dict, s.prev);
      t + [t[0]]
  }

  function DecStep(maxbits: nat, s: Dec, code: nat): (r: Dec)
    requires DecOk(maxbits, s) && Decodable(maxbits, s, code)
    ensures DecOk(maxbits, r)
  {
    var text := CodeText(maxbits, s, code);
    if s.prev != CLEAR && MaxEnt(s.dict) < MaxCode(maxbits) then
      var d := s.dict + [Entry(s.prev, text[0])];
      if MaxEnt(d) >= MaxCode(s.width) && MaxEnt(d) < MaxCode(maxbits) then
        WidthRoom(maxbits, d, s.width);
        Dec(d, s.width + 1, code, s.out + text)
      else
        assert MaxEnt(d) <= MaxCode(s.width);
        WidthFull(maxbits, d, s.width);
        Dec(d, s.width, code, s.out + text)
    else Dec(s.dict, s.width, code, s.out + text)
  }

  /** How reading the codes of a packet ended; `s` is the decoder state at that point. */
  datatype DecodeEnd =
    | Finished(s: Dec, cleared: bool)
    | Fatal(s: Dec)        // bad CLEAR, code out of range or packet longer than the mru
    | Unassigned(s: Dec)   // a code that follows one without an entry would be built on that one

  /** The code is rejected for its number alone. */
  predicate OutOfRange(maxbits: nat, s: Dec, code: nat) {
    code > MaxEnt(s.dict) + 2 || code > MaxCode(maxbits) || (code > MaxEnt(s.dict) && s.prev == CLEAR)
  }

  /** A code above the largest is taken for the KwKwK string, whichever of the two it is. */
  function Taken(s: Dec, code: nat): nat {
    if code == MaxEnt(s.dict) + 2 then MaxEnt(s.dict) + 1 else code
  }

  function Decode(maxbits: nat, mru: nat, s: Dec, bits: seq<bool>): (r: DecodeEnd)
    requires DecOk(maxbits, s)
    ensures DecOk(maxbits, r.s)
    decreases |bits|
  {
    if |bits| < s.width then Finished(s, false)
    else
      var code, rest := Val(bits[..s.width]), bits[s.width..];
      if code == CLEAR then
        if |rest| >= 8 then Fatal(s) else Finished(s, true)
      else if OutOfRange(maxbits, s, code) then Fatal(s)
      else if |s.out| + |CodeText(maxbits, s, Taken(s, code))| > mru + 1 then Fatal(s)
      else if code == MaxEnt(s.dict) + 2 then AfterLoose(maxbits, mru, DecStep(maxbits, s, Taken(s, code)), rest)
      else Decode(maxbits, mru, DecStep(maxbits, s, code), rest)
  }

  /**
   * After a code two above the largest, which the source does not reject: that code is the previous
   * one, and it has no entry. The packet may end here; another code would get the number of the
   * previous one and have it for its prefix.
   */
  function AfterLoose(maxbits: nat, mru: nat, s: Dec, bits: seq<bool>): (r: DecodeEnd)
    requires DecOk(maxbits, s)
    ensures DecOk(maxbits, r.s)
  {
    if |bits| < s.width then Finished(s, false)
    else
      var code, rest := Val(bits[..s.width]), bits[s.width..];
      if code == CLEAR then
        if |rest| >= 8 then Fatal(s) else Finished(s, true)
      else if code > MaxEnt(s.dict) + 2 || code > MaxCode(maxbits) then Fatal(s)
      else if code <= MaxEnt(s.dict) && |s.out| + |Expand(s.dict, code)| > mru + 1 then Fatal(s)
      else Unassigned(s)
  }

  datatype Outcome =
    | Ok(pkt: seq<byte>)
    | DecompError        // detected before decompression: a reset-request may be sent
    | DecompFatalError   // detected after decompression: compression is turned off
    | Unspecified        // a code has been entered that is its own prefix, or is read before it has an entry

  /** The state after the codes of a packet of `compressed` octets have been read. */
  function Settle(db: Db, end: DecodeEnd, compressed: nat): (r: Db)
    requires DecOk(db.maxbits, end.s) && db.seqno < 0x10000
    ensures DbOk(r) && r.maxbits == db.maxbits
  {
    var next := db.(dict := end.s.dict, nBits := end.s.width);
    if !end.Finished? then next
    else
      assert Pow2(INIT_BITS) == 512;
      Pow2Monotonic(INIT_BITS, db.maxbits);
      Check(if end.cleared then Clear(next)
            else Tally(next, end.s.dict, end.s.width, |end.s.out|, compressed)).0
  }

  /** bsd_decompress. */
  function Decompress(db: Db, msg: seq<byte>, mru: nat): (r: (Db, Outcome))
    requires DbOk(db)
    ensures DbOk(r.0) && r.0.maxbits == db.maxbits
  {
    if |msg| <= HDRLEN + OVHD then (db, DecompError)
    else if msg[4] as nat * 256 + msg[5] != db.seqno then (NextSeq(db), DecompError)
    else
      var payload := msg[HDRLEN + OVHD..];
      var end := Decode(db.maxbits, mru, Dec(db.dict, db.nBits, CLEAR, []), Unpack(payload));
      (Settle(NextSeq(db), end, |payload|),
       match end
       case Finished(s, _) => Ok([msg[0], msg[1], 0] + s.out)
       case Fatal(_) => DecompFatalError
       case Unassigned(_) => Unspecified)
  }
}
