/**
 The two ends of a BSD-Compress link stay in step: decompressing what Compress
 produced gives back the packet and leaves the receiver in the sender's state,
 and so does Incomp for a packet that went out uncompressed.
 */
module BsdRoundTrip {
  import opened Bits
  import opened BsdSpec

  ghost predicate Full(maxbits: nat, d: Dict) { MaxEnt(d) >= MaxCode(maxbits) }

  /**
   The decoder has read exactly the codes the encoder has sent.  It lags one
   dictionary entry behind, whose suffix starts the string not yet sent.
   */
  ghost predicate InStep(maxbits: nat, e: Enc, s: Dec, text: seq<byte>)
  {
    && EncOk(maxbits, e)
    && DecOk(maxbits, s)
    && s.width == e.width
    && s.out + Expand(e.dict, e.ent) == text
    && (if s.prev == CLEAR then s.dict == e.dict
        else
          || e.dict == s.dict + [Entry(s.prev, Expand(e.dict, e.ent)[0])]
          || (e.dict == s.dict && Full(maxbits, e.dict)))
  }

  /** Reading the encoder's current code catches the decoder up. */
  lemma CatchUp(maxbits: nat, e: Enc, s: Dec, text: seq<byte>)
    requires InStep(maxbits, e, s, text)
    ensures Decodable(maxbits, s, e.ent)
    ensures var s' := DecStep(maxbits, s, e.ent);
            && s'.dict == e.dict
            && s'.width == EndWidth(maxbits, e.dict, e.width)
            && s'.prev == e.ent
            && s'.out == text
            && s.out + CodeText(maxbits, s, e.ent) == text
  {
    Pow2Monotonic(e.width, maxbits);
    if e.ent <= MaxEnt(s.dict) {
      ExpandExtend(s.dict, e.dict, e.ent);
    } else {
      // KwKwK: the code sent is the one the decoder is about to add
      ExpandExtend(s.dict, e.dict, s.prev);
    }
  }

  lemma ReadCode(maxbits: nat, mru: nat, e: Enc, s: Dec, text: seq<byte>, tail: seq<bool>)
    requires InStep(maxbits, e, s, text)
    requires |text| <= mru + 1
    ensures e.ent < Pow2(e.width) && Decodable(maxbits, s, e.ent)
    ensures Decode(maxbits, mru, s, ToBits(e.ent, e.width) + tail)
         == Decode(maxbits, mru, DecStep(maxbits, s, e.ent), tail)
  {
    Pow2Monotonic(INIT_BITS, e.width);
    assert Pow2(INIT_BITS) == 512;
    CatchUp(maxbits, e, s, text);
    var bits := ToBits(e.ent, e.width) + tail;
    assert bits[..s.width] == ToBits(e.ent, e.width) && bits[s.width..] == tail;
  }

  /** The decoder after the codes sent while `data` went in. */
  ghost function DecAfter(maxbits: nat, e: Enc, s: Dec, data: seq<byte>): (r: Dec)
    requires EncOk(maxbits, e) && DecOk(maxbits, s)
    ensures DecOk(maxbits, r)
  {
    if |data| == 0 then s
    else
      var init, c := data[..|data| - 1], data[|data| - 1];
      var e' := EncRun(maxbits, e, init);
      var s' := DecAfter(maxbits, e, s, init);
      if Find(e'.dict, e'.ent, c).Some? || !Decodable(maxbits, s', e'.ent) then s'
      else DecStep(maxbits, s', e'.ent)
  }

  lemma ExpandFound(d: Dict, ent: nat, c: byte)
    requires WellFormed(d) && IsCode(d, ent) && Find(d, ent, c).Some?
    ensures Expand(d, Find(d, ent, c).value) == Expand(d, ent) + [c]
  {
  }

  lemma MatchKeepsInStep(maxbits: nat, e: Enc, s: Dec, text: seq<byte>, c: byte)
    requires InStep(maxbits, e, s, text)
    requires Find(e.dict, e.ent, c).Some?
    ensures InStep(maxbits, EncStep(maxbits, e, c), s, text + [c])
  {
    ExpandFound(e.dict, e.ent, c);
    hide Find, Expand, DictOk, WidthOk, Emit;
    var e' := EncStep(maxbits, e, c);
    assert e' == e.(ent := Find(e.dict, e.ent, c).value);
    assert s.out + (Expand(e.dict, e.ent) + [c]) == text + [c];
  }

  lemma MissKeepsInStep(maxbits: nat, e: Enc, s: Dec, text: seq<byte>, c: byte)
    requires InStep(maxbits, e, s, text)
    requires Find(e.dict, e.ent, c).None?
    ensures Decodable(maxbits, s, e.ent)
    ensures InStep(maxbits, EncStep(maxbits, e, c), DecStep(maxbits, s, e.ent), text + [c])
  {
    CatchUp(maxbits, e, s, text);
    var e', s' := EncStep(maxbits, e, c), DecStep(maxbits, s, e.ent);
    EncMiss(maxbits, e, c);
    CaughtUpInStep(maxbits, e, e', s', text, c);
  }

  lemma EncMiss(maxbits: nat, e: Enc, c: byte)
    requires EncOk(maxbits, e)
    requires Find(e.dict, e.ent, c).None?
    ensures var e' := EncStep(maxbits, e, c);
            && e'.width == EndWidth(maxbits, e.dict, e.width)
            && e'.ent == c
            && e'.dict == if Full(maxbits, e.dict) then e.dict else e.dict + [Entry(e.ent, c)]
  {
  }

  lemma CaughtUpInStep(maxbits: nat, e: Enc, e': Enc, s: Dec, text: seq<byte>, c: byte)
    requires EncOk(maxbits, e') && DecOk(maxbits, s)
    requires s.dict == e.dict && s.width == e'.width && s.prev == e.ent && s.out == text
    requires s.prev != CLEAR
    requires e'.ent == c
    requires e'.dict == if Full(maxbits, e.dict) then e.dict else e.dict + [Entry(e.ent, c)]
    ensures InStep(maxbits, e', s, text + [c])
  {
    assert Expand(e'.dict, e'.ent) == [c];
  }

  /** Over a whole packet: the decoder reads the codes sent so far and is in step. */
  lemma {:induction false} Simulate(
    maxbits: nat, mru: nat, e: Enc, s: Dec, text: seq<byte>, data: seq<byte>, tail: seq<bool>)
    requires InStep(maxbits, e, s, text)
    requires |text + data| <= mru + 1
    requires e.bits == []
    ensures InStep(maxbits, EncRun(maxbits, e, data), DecAfter(maxbits, e, s, data), text + data)
    ensures Decode(maxbits, mru, s, EncRun(maxbits, e, data).bits + tail)
         == Decode(maxbits, mru, DecAfter(maxbits, e, s, data), tail)
    decreases |data|
  {
    hide Decode, Pow2, ToBits, DictOk, WidthOk, Find, Expand;
    if |data| == 0 {
      assert [] + tail == tail && text + data == text;
    } else {
      var init, c := data[..|data| - 1], data[|data| - 1];
      assert text + data == text + init + [c];
      var e' := EncRun(maxbits, e, init);
      var s' := DecAfter(maxbits, e, s, init);
      Simulate(maxbits, mru, e, s, text, init, tail);
      if Find(e'.dict, e'.ent, c).Some? {
        MatchKeepsInStep(maxbits, e', s', text + init, c);
      } else {
        MissKeepsInStep(maxbits, e', s', text + init, c);
        ReadCode(maxbits, mru, e', s', text + init, tail);
        var code := ToBits(e'.ent, e'.width);
        assert e'.bits + code + tail == e'.bits + (code + tail);
        Simulate(maxbits, mru, e, s, text, init, code + tail);
      }
    }
  }

  lemma DecoderStart(db: Db, proto: byte)
    requires DbOk(db)
    ensures InStep(db.maxbits, EncStart(db, proto), Dec(db.dict, db.nBits, CLEAR, []), [proto])
  {
    assert [] + [proto] == [proto];
  }

  /** Decoding all data codes of a packet leaves the decoder with the encoder's dictionary and the text. */
  lemma DecodePacket(db: Db, mru: nat, proto: byte, data: seq<byte>, tail: seq<bool>)
    requires DbOk(db) && |data| <= mru
    ensures var e := EncRun(db.maxbits, EncStart(db, proto), data);
            var start := Dec(db.dict, db.nBits, CLEAR, []);
            var end := Dec(e.dict, EndWidth(db.maxbits, e.dict, e.width), e.ent, [proto] + data);
            && DecOk(db.maxbits, start)
            && DecOk(db.maxbits, end)
            && Decode(db.maxbits, mru, start, Emit(db.maxbits, e) + tail) == Decode(db.maxbits, mru, end, tail)
  {
    var mb, start := db.maxbits, Dec(db.dict, db.nBits, CLEAR, []);
    var e0 := EncStart(db, proto);
    var e := EncRun(mb, e0, data);
    var s := DecAfter(mb, e0, start, data);
    DecoderStart(db, proto);
    var code := ToBits(e.ent, e.width);
    assert Emit(mb, e) + tail == e.bits + (code + tail);
    Simulate(mb, mru, e0, start, [proto], data, code + tail);
    ReadCode(mb, mru, e, s, [proto] + data, tail);
    CatchUp(mb, e, s, [proto] + data);
  }

  /** What follows the data codes: padding alone, or CLEAR and padding. */
  lemma DecodeTail(maxbits: nat, mru: nat, s: Dec, cleared: bool, pad: seq<bool>)
    requires DecOk(maxbits, s) && |pad| < 8
    ensures CLEAR < Pow2(s.width)
    ensures Decode(maxbits, mru, s, (if cleared then ToBits(CLEAR, s.width) else []) + pad)
         == Finished(s, cleared)
  {
    Pow2Monotonic(INIT_BITS, s.width);
    assert Pow2(INIT_BITS) == 512;
    if cleared {
      var clear := ToBits(CLEAR, s.width);
      assert (clear + pad)[..s.width] == clear && (clear + pad)[s.width..] == pad;
    } else {
      assert [] + pad == pad;
    }
  }

  lemma OneCode(maxbits: nat, mru: nat, s: Dec, code: nat, pad: seq<bool>)
    requires DecOk(maxbits, s) && s.prev != CLEAR && |pad| < 8
    requires MaxEnt(s.dict) < code <= MaxEnt(s.dict) + 2 && code <= MaxCode(maxbits) && code < Pow2(s.width)
    ensures var end := DecStep(maxbits, s, MaxEnt(s.dict) + 1);
      Decode(maxbits, mru, s, ToBits(code, s.width) + pad)
      == if |end.out| > mru + 1 then Fatal(s) else Finished(end, false)
  {
    hide Pow2, ToBits, DictOk, Expand;
    var bits := ToBits(code, s.width);
    assert (bits + pad)[..s.width] == bits && (bits + pad)[s.width..] == pad;
  }

  /** A packet may end in a code two above the largest: it is read as the KwKwK string, one above. */
  lemma LooseLast(maxbits: nat, mru: nat, s: Dec, pad: seq<bool>)
    requires DecOk(maxbits, s) && s.prev != CLEAR && |pad| < 8
    requires MaxEnt(s.dict) + 2 <= MaxCode(maxbits) && MaxEnt(s.dict) + 2 < Pow2(s.width)
    ensures Decode(maxbits, mru, s, ToBits(MaxEnt(s.dict) + 2, s.width) + pad)
         == Decode(maxbits, mru, s, ToBits(MaxEnt(s.dict) + 1, s.width) + pad)
  {
    hide Decode, ToBits, Pow2, DecStep, DecOk;
    OneCode(maxbits, mru, s, MaxEnt(s.dict) + 2, pad);
    OneCode(maxbits, mru, s, MaxEnt(s.dict) + 1, pad);
  }

  /** The receiver's bookkeeping after the codes agrees with the sender's. */
  lemma SameTally(db: Db, e: Enc, n: nat, end: DecodeEnd, len: nat)
    requires EncOk(db.maxbits, e)
    requires end.Finished? && end.cleared == Check(Counted(db, e, n)).1
    requires end.s.dict == e.dict && end.s.width == EndWidth(db.maxbits, e.dict, e.width) && |end.s.out| == n
    requires DecOk(db.maxbits, end.s)
    requires !end.cleared ==> len == (|Emit(db.maxbits, e)| + 7) / 8
    ensures Settle(NextSeq(db), end, len) == Conclude(db, e, n).0
  {
    hide DictOk, WidthOk, Pow2, Age, Ratio, Emit;
    CheckIgnoresWidth(Counted(db, e, n), end.s.width);
  }

  lemma DecompressPayload(db: Db, mru: nat, proto: byte, data: seq<byte>, payload: seq<byte>)
    requires DbOk(db) && |data| <= mru
    requires payload == Pack(PadOnes(Absorb(db, proto, data).1))
    ensures var e := EncRun(db.maxbits, EncStart(db, proto), data);
            var start := Dec(db.dict, db.nBits, CLEAR, []);
            && DecOk(db.maxbits, start)
            && Decode(db.maxbits, mru, start, Unpack(payload))
            == Finished(Dec(e.dict, EndWidth(db.maxbits, e.dict, e.width), e.ent, [proto] + data),
                        Check(Counted(db, e, |data| + 1)).1)
  {
    hide EncRun, Decode, Unpack, Pack, DictOk, WidthOk, Check, Pow2;
    var mb := db.maxbits;
    var e := EncRun(mb, EncStart(db, proto), data);
    var cleared := Check(Counted(db, e, |data| + 1)).1;
    var end := Dec(e.dict, EndWidth(mb, e.dict, e.width), e.ent, [proto] + data);
    var bits := Absorb(db, proto, data).1;
    var pad := PadOnes(bits)[|bits|..];
    UnpackPack(PadOnes(bits));
    ConcludeBits(db, e, |data| + 1);
    DecodePacket(db, mru, proto, data, []);
    DecodeTail(mb, mru, end, cleared, pad);
    var tail := (if cleared then ToBits(CLEAR, end.width) else []) + pad;
    assert PadOnes(bits) == Emit(mb, e) + tail;
    DecodePacket(db, mru, proto, data, tail);
  }

  lemma NonEmptyPayload(db: Db, proto: byte, data: seq<byte>)
    requires DbOk(db)
    ensures |Pack(PadOnes(Absorb(db, proto, data).1))| > 0
  {
    ConcludeBits(db, EncRun(db.maxbits, EncStart(db, proto), data), |data| + 1);
    UnpackPack(PadOnes(Absorb(db, proto, data).1));
  }

  lemma DecompressMessage(db: Db, mru: nat, proto: byte, data: seq<byte>, msg: seq<byte>)
    requires DbOk(db) && |data| <= mru
    requires |msg| > HDRLEN + OVHD && msg[4] as nat * 256 + msg[5] == db.seqno
    requires msg[HDRLEN + OVHD..] == Pack(PadOnes(Absorb(db, proto, data).1))
    ensures Decompress(db, msg, mru) == (Absorb(db, proto, data).0, Ok([msg[0], msg[1], 0] + ([proto] + data)))
  {
    hide EncRun, Decode, Unpack, Pack, PadOnes, Emit, Settle, Conclude, DictOk, WidthOk;
    var e := EncRun(db.maxbits, EncStart(db, proto), data);
    var payload := msg[HDRLEN + OVHD..];
    DecompressPayload(db, mru, proto, data, payload);
    var end := Decode(db.maxbits, mru, Dec(db.dict, db.nBits, CLEAR, []), Unpack(payload));
    ConcludeBits(db, e, |data| + 1);
    UnpackPack(PadOnes(Absorb(db, proto, data).1));
    SameTally(db, e, |data| + 1, end, |payload|);
  }

  lemma HeaderRestored(pkt: seq<byte>)
    requires Compressible(pkt)
    ensures [pkt[0], pkt[1], 0] + ([pkt[3]] + pkt[HDRLEN..]) == pkt
  {
    assert pkt[2] == 0;
  }

  /** What Compress sends out, Decompress turns back into the packet. */
  lemma RoundTrip(db: Db, pkt: seq<byte>, maxolen: nat, mru: nat)
    requires DbOk(db)
    requires |pkt| <= mru + HDRLEN
    requires Compress(db, pkt, maxolen).2.Some?
    ensures Decompress(db, Compress(db, pkt, maxolen).2.value, mru) == (Compress(db, pkt, maxolen).0, Ok(pkt))
  {
    var proto, data := pkt[3], pkt[HDRLEN..];
    var r := Compress(db, pkt, maxolen);
    var msg := r.2.value;
    NonEmptyPayload(db, proto, data);
    DecompressMessage(db, mru, proto, data, msg);
    HeaderRestored(pkt);
  }

  /**
   One packet over a link in step: if it goes out compressed the receiver gets
   exactly that packet, and whichever way it goes both ends reach the same state.
   */
  lemma LockStep(db: Db, pkt: seq<byte>, maxolen: nat, mru: nat)
    requires DbOk(db)
    requires |pkt| <= mru + HDRLEN
    ensures var (db', total, out) := Compress(db, pkt, maxolen);
            && Incomp(db, pkt) == db'
            && (out.Some? ==> Decompress(db, out.value, mru) == (db', Ok(pkt)))
            && (out.Some? ==> |out.value| == total <= Min(maxolen, |pkt|))
  {
    if Compress(db, pkt, maxolen).2.Some? {
      RoundTrip(db, pkt, maxolen, mru);
    }
  }

  /** The ratio check neither reads nor, unless it clears, changes the code width. */
  lemma CheckIgnoresWidth(db: Db, width: nat)
    ensures Check(db.(nBits := width)).1 == Check(db).1
    ensures Check(db.(nBits := width)).0
         == if Check(db).1 then Check(db).0 else Check(db).0.(nBits := width)
  {
  }
}
