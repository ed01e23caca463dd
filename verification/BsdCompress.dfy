/**
 BSD-Compress as modules/bsd-comp.c runs it: struct bsd_db with its hash table
 updated in place, proved against the functions of BsdSpec.  The fields of the
 struct are divided between CodeTable (the dictionary) and BsdDb (the rest).
 */
module BsdCompress {
  import opened Bits
  import opened Wrappers
  import opened Accumulator
  import opened Probing
  import opened BsdTable
  import opened BsdSpec

  class CodeTable {
    const maxbits: nat
    const decomp: bool         // has the array of code lengths
    const fcode: array<nat>    // per slot: key of the pair
    const codem1: array<nat>   // per slot: code of the pair, minus one
    const cptr: array<nat>     // per code: its slot
    const lens: array<nat>     // per code: length of its string
    var maxEnt: nat
    ghost var dict: Dict       // the pairs of the codes given out since the last clear
    ghost var depth: seq<nat>  // how many probes each took

    ghost function Tbl(): Table
      reads fcode, codem1, cptr
    {
      Table(fcode[..], codem1[..], cptr[..])
    }

    ghost predicate Valid()
      reads this, fcode, codem1, cptr, lens
    {
      && fcode != codem1 && fcode != cptr && codem1 != cptr
      && lens != fcode && lens != codem1 && lens != cptr
      && TableOk(maxbits, Tbl(), dict, depth)
      && maxEnt == MaxEnt(dict)
      && (decomp ==> LensOk(maxbits, lens[..], dict))
    }

    lemma Sizes()
      requires Valid()
      ensures fcode.Length == codem1.Length == cptr.Length == Hsize(maxbits) > MaxCode(maxbits)
      ensures forall i | 0 <= i < cptr.Length :: cptr[i] < Hsize(maxbits)
      ensures decomp ==> lens.Length == MaxCode(maxbits) + 1
      ensures MaxEnt(dict) <= MaxCode(maxbits)
    {
      assert cptr[..] == Tbl().cptr;
    }

    lemma Largest()
      requires Valid()
      ensures maxEnt == MaxEnt(dict) && DictOk(maxbits, dict)
    {
    }

    constructor (maxbits: nat, decomp: bool)
      requires Sized(maxbits)
      ensures Valid() && dict == []
      ensures this.maxbits == maxbits && this.decomp == decomp
      ensures fresh(fcode) && fresh(codem1) && fresh(cptr) && fresh(lens)
    {
      var size := Hsize(maxbits);
      this.maxbits, this.decomp := maxbits, decomp;
      this.fcode := new nat[size](_ => 0);
      this.codem1 := new nat[size](_ => BADCODEM1);
      this.cptr := new nat[size](_ => 0);
      this.lens := new nat[if decomp then MaxCode(maxbits) + 1 else 0](_ => 1);
      maxEnt := FIRST - 1;
      dict, depth := [], [];
      new;
      if decomp {
        InitialLens(maxbits, lens[..]);
      }
      hide LensOk, TableOk;
      Geometry(maxbits);
      EmptyTableOk(maxbits, Tbl());
    }

    /** The dictionary is forgotten, but nothing in the table changes. */
    method Forget()
      requires Valid()
      modifies this
      ensures Valid() && dict == []
    {
      maxEnt := FIRST - 1;
      dict, depth := [], [];
      EmptyTableOk(maxbits, Tbl());
    }

    /** The loops of bsd_init over the code lengths and the slots. */
    method Wipe()
      requires Valid()
      modifies this, codem1, cptr, lens
      ensures Valid() && dict == []
    {
      Sizes();
      Geometry(maxbits);
      MinimalWidth(maxbits);
      ghost var size := Hsize(maxbits);
      if decomp {
        var k := LAST + 1;
        assert Pow2(9) == 512;
        while k != 0
          invariant 0 <= k <= LAST + 1 <= lens.Length
          invariant forall j | k <= j <= LAST :: lens[j] == 1
          modifies lens
        {
          k := k - 1;
          lens[k] := 1;
        }
      }
      hide TableOk, Prime, Hsize;
      var i := codem1.Length;
      while i != 0
        invariant 0 <= i <= codem1.Length == cptr.Length == fcode.Length
        invariant forall j | i <= j < codem1.Length :: codem1[j] == BADCODEM1 && cptr[j] == 0
        modifies codem1, cptr
      {
        i := i - 1;
        codem1[i] := BADCODEM1;
        cptr[i] := 0;
      }
      maxEnt := FIRST - 1;
      dict, depth := [], [];
      EmptyTableOk(maxbits, Tbl());
    }

    /** Probe for a pair until it is found or a dead slot is met. */
    method Lookup(ent: nat, c: byte) returns (found: bool, hval: nat, ghost n: nat)
      requires Valid() && IsCode(dict, ent)
      ensures n < Hsize(maxbits) && hval == SlotOf(maxbits, Entry(ent, c), n) < codem1.Length
      ensures forall m | 0 <= m < n :: Live(Tbl(), dict, SlotOf(maxbits, Entry(ent, c), m))
      ensures Find(dict, ent, c) == if found then Some(codem1[hval] + 1) else None
      ensures !found ==> !Live(Tbl(), dict, hval)
    {
      var e := Entry(ent, c);
      var key, disp := Key(e), Disp(maxbits, e);
      FirstSlot(maxbits, e);
      hval, n := Hash(maxbits, e), 0;
      while codem1[hval] < maxEnt && fcode[hval] != key
        invariant n < Hsize(maxbits) && hval == SlotOf(maxbits, e, n)
        invariant forall m | 0 <= m < n :: Live(Tbl(), dict, SlotOf(maxbits, e, m))
        invariant forall m | 0 <= m < n :: Tbl().fcode[SlotOf(maxbits, e, m)] != key
        decreases Hsize(maxbits) - n
      {
        NotAllLive(maxbits, Tbl(), dict, depth, e, n + 1);
        NextSlot(maxbits, e, n);
        hval := hval + disp;
        if hval >= codem1.Length {
          hval := hval - codem1.Length;
        }
        n := n + 1;
      }
      found := codem1[hval] < maxEnt;
      if found {
        HitIsFind(maxbits, Tbl(), dict, depth, e, n);
      } else {
        MissIsNone(maxbits, Tbl(), dict, depth, e, n);
      }
    }

    /** Look for a free slot for a pair, as the decompressor does. */
    method FindFree(ent: nat, c: byte) returns (hval: nat, ghost n: nat)
      requires Valid() && IsCode(dict, ent)
      ensures n < Hsize(maxbits) && hval == SlotOf(maxbits, Entry(ent, c), n) < codem1.Length
      ensures forall m | 0 <= m < n :: Live(Tbl(), dict, SlotOf(maxbits, Entry(ent, c), m))
      ensures !Live(Tbl(), dict, hval)
    {
      var e := Entry(ent, c);
      var disp := Disp(maxbits, e);
      FirstSlot(maxbits, e);
      hval, n := Hash(maxbits, e), 0;
      while codem1[hval] < maxEnt
        invariant n < Hsize(maxbits) && hval == SlotOf(maxbits, e, n)
        invariant forall m | 0 <= m < n :: Live(Tbl(), dict, SlotOf(maxbits, e, m))
        decreases Hsize(maxbits) - n
      {
        NotAllLive(maxbits, Tbl(), dict, depth, e, n + 1);
        NextSlot(maxbits, e, n);
        hval := hval + disp;
        if hval >= codem1.Length {
          hval := hval - codem1.Length;
        }
        n := n + 1;
      }
    }

    /** Invalidate the slot that held the next code, then enter the pair at a free slot. */
    method Seize(hval: nat, e: Entry)
      requires fcode.Length == codem1.Length == cptr.Length && maxEnt + 1 < cptr.Length && hval < codem1.Length
      requires cptr[maxEnt + 1] < codem1.Length
      requires fcode != codem1 && fcode != cptr && codem1 != cptr
      modifies fcode, codem1, cptr
      ensures Tbl() == TakeOver(maxbits, old(Tbl()), maxEnt, hval, e)
    {
      var prior := cptr[maxEnt + 1];
      if codem1[prior] == maxEnt {
        codem1[prior] := BADCODEM1;
      }
      cptr[maxEnt + 1] := hval;
      codem1[hval] := maxEnt;
      fcode[hval] := Key(e);
    }

    /** Give the next code to a pair at a free slot. */
    method NewCode(hval: nat, ent: nat, c: byte, ghost n: nat)
      requires Valid() && IsCode(dict, ent) && maxEnt < MaxCode(maxbits)
      requires n < Hsize(maxbits) && hval == SlotOf(maxbits, Entry(ent, c), n)
      requires !Live(Tbl(), dict, hval)
      requires forall m | 0 <= m < n :: Live(Tbl(), dict, SlotOf(maxbits, Entry(ent, c), m))
      modifies this, fcode, codem1, cptr, lens
      ensures Valid() && dict == old(dict) + [Entry(ent, c)]
    {
      var e := Entry(ent, c);
      Sizes();
      hide LensOk, TableOk, SlotOf, TakeOver;
      ghost var d, was := dict, lens[..];
      TakeOverOk(maxbits, Tbl(), d, depth, e, n);
      Seize(hval, e);
      maxEnt := maxEnt + 1;
      dict, depth := dict + [e], depth + [n];
      if decomp {
        lens[maxEnt] := lens[ent] + 1;
        LensExtend(maxbits, was, d, e);
        assert lens[..] == was[maxEnt := was[ent] + 1];
      }
    }

    /** The pair of a code, read from the slot that holds it. */
    method PairOf(code: nat) returns (prefix: nat, suffix: byte)
      requires Valid() && FIRST <= code <= MaxEnt(dict)
      ensures dict[code - FIRST] == Entry(prefix, suffix)
    {
      CodesFit(maxbits);
      assert Stored(maxbits, Tbl(), dict, code - FIRST);
      KeyParts(dict[code - FIRST]);
      var key := fcode[cptr[code]];
      prefix, suffix := key % 0x10000, key / 0x10000;
    }

    lemma LengthOf(code: nat)
      requires Valid() && decomp && IsCode(dict, code)
      ensures code < lens.Length && WellFormed(dict) && lens[code] == |BsdSpec.Expand(dict, code)|
    {
      assert Pow2(9) == 512;
      Pow2Monotonic(9, maxbits);
      assert lens[..][code] == lens[code];
    }

    /** Write the string of a code back to front, following the chain of prefixes. */
    method Expand(code: nat) returns (text: seq<byte>)
      requires Valid() && decomp && IsCode(dict, code)
      ensures text == BsdSpec.Expand(dict, code)
    {
      LengthOf(code);
      hide Valid;
      var buf := new byte[lens[code]];
      var p: nat, finchar: nat := buf.Length, code;
      ghost var whole := BsdSpec.Expand(dict, code);
      while finchar > LAST
        invariant IsCode(dict, finchar) && p == |BsdSpec.Expand(dict, finchar)| <= buf.Length
        invariant whole == BsdSpec.Expand(dict, finchar) + buf[p..]
        decreases finchar
      {
        var prefix, suffix := PairOf(finchar);
        ghost var done := buf[p..];
        p := p - 1;
        buf[p] := suffix;
        assert buf[p..] == [suffix] + done;
        finchar := prefix;
      }
      p := p - 1;
      buf[p] := finchar;
      text := buf[..];
    }
  }

  class BsdDb {
    const mru: nat
    const codes: CodeTable
    var nBits: nat
    var seqno: nat
    var inCount: nat
    var bytesOut: nat
    var ratio: nat
    var checkpoint: nat

    ghost function Db(): Db
      reads this, codes
    {
      BsdSpec.Db(codes.maxbits, seqno, codes.dict, nBits, inCount, bytesOut, ratio, checkpoint)
    }

    ghost function Repr(): set<object>
    {
      {this, codes, codes.fcode, codes.codem1, codes.cptr, codes.lens}
    }

    /** What holds between packets. */
    ghost predicate Valid()
      reads Repr()
    {
      codes.Valid() && DbOk(Db())
    }

    /** bsd_alloc and bsd_init */
    constructor (maxbits: nat, mru: nat, decomp: bool)
      requires Sized(maxbits)
      ensures Valid() && fresh(Repr()) && Db() == Initial(maxbits)
      ensures this.mru == mru && codes.decomp == decomp
    {
      this.mru := mru;
      codes := new CodeTable(maxbits, decomp);
      nBits, seqno := INIT_BITS, 0;
      inCount, bytesOut, ratio, checkpoint := 0, 0, 0, CHECK_GAP;
      new;
      MinimalWidth(maxbits);
    }

    /** bsd_clear */
    method Clear()
      requires codes.Valid() && seqno < 0x10000
      modifies this, codes
      ensures Valid() && Db() == BsdSpec.Clear(old(Db()))
    {
      codes.Forget();
      nBits, ratio, bytesOut, inCount, checkpoint := INIT_BITS, 0, 0, 0, CHECK_GAP;
      MinimalWidth(codes.maxbits);
    }

    /** bsd_init on a table already in use */
    method Init()
      requires Valid()
      modifies Repr()
      ensures Valid() && Db() == Initial(codes.maxbits)
    {
      hide CodeTable.Valid;
      codes.Wipe();
      seqno := 0;
      Clear();
    }

    /** bsd_reset */
    method Reset()
      requires Valid()
      modifies this, codes
      ensures Valid() && Db() == BsdSpec.Reset(old(Db()))
    {
      seqno := 0;
      Clear();
    }

    /** bsd_check */
    method Check() returns (cleared: bool)
      requires codes.Valid() && seqno < 0x10000
      modifies this, codes
      ensures codes.Valid() && (Db(), cleared) == BsdSpec.Check(old(Db()))
      ensures old(DbOk(Db())) ==> Valid()
    {
      cleared := false;
      if inCount >= checkpoint {
        if inCount >= RATIO_MAX || bytesOut >= RATIO_MAX {
          inCount := inCount - inCount / 4;
          bytesOut := bytesOut - bytesOut / 4;
        }
        checkpoint := inCount + CHECK_GAP;
        assert Db() == Renew(old(Db()));
        if codes.maxEnt >= MaxCode(codes.maxbits) {
          var newRatio := inCount * RATIO_SCALE;
          if bytesOut != 0 {
            newRatio := newRatio / bytesOut;
          }
          assert newRatio == Ratio(inCount, bytesOut);
          if newRatio < ratio || newRatio < RATIO_SCALE {
            Clear();
            return true;
          }
          ratio := newRatio;
        }
      }
    }

    /** This object is where the encoding of a packet has come to. */
    ghost predicate Encoding(e: Enc, ent: nat)
      reads Repr()
    {
      codes.Valid() && EncOk(codes.maxbits, e) && codes.dict == e.dict && nBits == e.width && ent == e.ent
    }

    /** After a miss: widen the codes if needed, and give out the next code unless all are taken. */
    method GiveOut(hval: nat, ent: nat, c: byte, ghost n: nat, ghost e: Enc)
      requires Encoding(e, ent) && Find(codes.dict, ent, c).None?
      requires n < Hsize(codes.maxbits) && hval == SlotOf(codes.maxbits, Entry(ent, c), n)
      requires !Live(codes.Tbl(), codes.dict, hval)
      requires forall m | 0 <= m < n :: Live(codes.Tbl(), codes.dict, SlotOf(codes.maxbits, Entry(ent, c), m))
      modifies `nBits, codes, codes.fcode, codes.codem1, codes.cptr, codes.lens
      ensures Encoding(EncStep(codes.maxbits, e, c), c)
    {
      if codes.maxEnt < MaxCode(codes.maxbits) {
        if codes.maxEnt >= MaxCode(nBits) {
          nBits := nBits + 1;
        }
        codes.NewCode(hval, ent, c, n);
      }
    }

    /** The loop of bsd_compress over the octets of a packet. */
    method EncodeData(proto: nat, data: seq<byte>, ghost start: Enc)
      returns (ent: nat, buf: seq<byte>, accm: nat, bitno: nat, ghost pending: seq<bool>)
      requires Encoding(start, proto) && start.bits == []
      modifies `nBits, codes, codes.fcode, codes.codem1, codes.cptr, codes.lens
      ensures Encoding(EncRun(codes.maxbits, start, data), ent)
      ensures Packed(buf, accm, bitno, pending, EncRun(codes.maxbits, start, data).bits)
    {
      hide CodeTable.Valid, EncStep, DictOk, Packed, ToBits, Pow2;
      NothingPacked();
      ent, buf, accm, bitno, pending := proto, [], 0, 32, [];
      assert data[..0] == [];
      var i := 0;
      while i < |data|
        invariant 0 <= i <= |data|
        invariant Encoding(EncRun(codes.maxbits, start, data[..i]), ent)
        invariant Packed(buf, accm, bitno, pending, EncRun(codes.maxbits, start, data[..i]).bits)
      {
        ghost var e := EncRun(codes.maxbits, start, data[..i]);
        var c := data[i];
        EncRunStep(codes.maxbits, start, data, i);
        var found, hval;
        ghost var n;
        found, hval, n := codes.Lookup(ent, c);
        if found {
          ent := codes.codem1[hval] + 1;
        } else {
          CodeFits(codes.maxbits, e);
          buf, accm, bitno, pending := Output(buf, accm, bitno, ent, nBits, pending, e.bits);
          GiveOut(hval, ent, c, n, e);
          ent := c;
        }
        i := i + 1;
      }
      assert data[..i] == data;
    }

    /** The loop of bsd_incomp: the same walk, but the bits are only counted. */
    method CountData(proto: nat, data: seq<byte>, ghost start: Enc) returns (ent: nat, bitno: nat)
      requires Encoding(start, proto) && start.bits == []
      modifies `nBits, codes, codes.fcode, codes.codem1, codes.cptr, codes.lens
      ensures Encoding(EncRun(codes.maxbits, start, data), ent)
      ensures bitno == 7 + |EncRun(codes.maxbits, start, data).bits|
    {
      hide CodeTable.Valid, EncStep, DictOk;
      ent, bitno := proto, 7;
      assert data[..0] == [];
      var i := 0;
      while i < |data|
        invariant 0 <= i <= |data|
        invariant Encoding(EncRun(codes.maxbits, start, data[..i]), ent)
        invariant bitno == 7 + |EncRun(codes.maxbits, start, data[..i]).bits|
      {
        ghost var e := EncRun(codes.maxbits, start, data[..i]);
        var c := data[i];
        EncRunStep(codes.maxbits, start, data, i);
        var found, hval;
        ghost var n;
        found, hval, n := codes.Lookup(ent, c);
        if found {
          ent := codes.codem1[hval] + 1;
        } else {
          bitno := bitno + nBits;
          GiveOut(hval, ent, c, n, e);
          ent := c;
        }
        i := i + 1;
      }
      assert data[..i] == data;
    }

    /** The ratio check and the width for the next packet, after a packet was absorbed. */
    method EndPacket(ghost db: Db, ghost e: Enc, ghost n: nat) returns (cleared: bool)
      requires Encoding(e, e.ent) && db.maxbits == codes.maxbits && Db() == Counted(db, e, n) && seqno < 0x10000
      modifies this, codes
      ensures Valid() && Db() == Conclude(db, e, n).0
      ensures cleared == BsdSpec.Check(Counted(db, e, n)).1
    {
      hide CodeTable.Valid, BsdSpec.Check, Conclude, DbOk, Counted;
      codes.Largest();
      ConcludeIs(db, e, n);
      var width, ent := nBits, codes.maxEnt;
      cleared := Check();
      if ent >= MaxCode(width) && ent < MaxCode(codes.maxbits) {
        nBits := nBits + 1;
      }
    }

    /** bsd_incomp */
    method Incomp(pkt: seq<byte>)
      requires Valid()
      modifies Repr()
      ensures Valid() && Db() == BsdSpec.Incomp(old(Db()), pkt)
    {
      hide CodeTable.Valid, EncRun, Conclude, DictOk, WidthOk;
      if |pkt| < HDRLEN {
        return;
      }
      var ent := Protocol(pkt);
      if ent < 0x21 || ent > 0xf9 {
        return;
      }
      ghost var db := Db();
      ghost var start := EncStart(db, pkt[3]);
      ghost var e := EncRun(codes.maxbits, start, pkt[HDRLEN..]);
      var bitno;
      ent, bitno := CountData(ent, pkt[HDRLEN..], start);
      seqno := (seqno + 1) % 0x10000;
      bitno := bitno + nBits;
      bytesOut := bytesOut + bitno / 8;
      inCount := inCount + (|pkt| - HDRLEN + 1);
      var cleared := EndPacket(db, e, |pkt[HDRLEN..]| + 1);
    }

    /** Send all codes of a packet and count its octets. */
    method SendCodes(proto: byte, data: seq<byte>, ghost e: Enc)
      returns (buf: seq<byte>, accm: nat, bitno: nat, ghost pending: seq<bool>)
      requires Valid() && e == EncRun(codes.maxbits, EncStart(Db(), proto), data)
      modifies Repr()
      ensures Encoding(e, e.ent) && seqno < 0x10000 && Db() == Counted(old(Db()), e, |data| + 1)
      ensures Packed(buf, accm, bitno, pending, Emit(codes.maxbits, e))
    {
      hide CodeTable.Valid, EncRun, DictOk, WidthOk, Packed, ToBits, Pow2, Emit;
      var ent;
      ent, buf, accm, bitno, pending := EncodeData(proto, data, EncStart(Db(), proto));
      seqno := (seqno + 1) % 0x10000;
      CodeFits(codes.maxbits, e);
      buf, accm, bitno, pending := Output(buf, accm, bitno, ent, nBits, pending, e.bits);
      OctetCount(buf, accm, bitno, pending, Emit(codes.maxbits, e));
      bytesOut := bytesOut + |buf|;
      inCount := inCount + |data| + 1;
      if bitno < 32 {
        bytesOut := bytesOut + 1;
      }
    }

    /** The codes of a packet as octets, with CLEAR and padding. */
    method EncodePacket(proto: byte, data: seq<byte>) returns (buf: seq<byte>)
      requires Valid()
      modifies Repr()
      ensures Valid() && Db() == Absorb(old(Db()), proto, data).0
      ensures buf == Pack(PadOnes(Absorb(old(Db()), proto, data).1))
    {
      hide CodeTable.Valid, EncRun, Conclude, Packed, ToBits, Pow2, Pack, PadOnes, Emit, BsdSpec.Check, Counted;
      ghost var db := Db();
      ghost var e := EncRun(codes.maxbits, EncStart(db, proto), data);
      var accm, bitno;
      ghost var pending;
      buf, accm, bitno, pending := SendCodes(proto, data, e);
      CodeFits(codes.maxbits, e);
      ConcludeBits(db, e, |data| + 1);
      var width := nBits;
      var cleared := EndPacket(db, e, |data| + 1);
      if cleared {
        buf, accm, bitno, pending := Output(buf, accm, bitno, CLEAR, width, pending, Emit(codes.maxbits, e));
      }
      buf := PadLast(buf, accm, bitno, pending, Conclude(db, e, |data| + 1).1);
    }

    /** bsd_compress */
    method Compress(pkt: seq<byte>, maxolen: nat) returns (total: nat, out: Option<seq<byte>>)
      requires Valid()
      modifies Repr()
      ensures Valid() && (Db(), total, out) == BsdSpec.Compress(old(Db()), pkt, maxolen)
    {
      hide CodeTable.Valid, Absorb, Pack, PadOnes;
      if |pkt| < HDRLEN {
        return 0, None;
      }
      var ent := Protocol(pkt);
      if ent < 0x21 || ent > 0xf9 {
        return 0, None;
      }
      var number := seqno;
      var buf := EncodePacket(pkt[3], pkt[HDRLEN..]);
      total := |buf| + HDRLEN + OVHD;
      if total > Min(maxolen, |pkt|) {
        out := None;
      } else {
        out := Some(CompressedPacket(pkt[0], pkt[1], number, buf));
      }
    }

    /** This object is where the decoding of a packet has come to. */
    ghost predicate Decoding(s: Dec)
      reads Repr()
    {
      codes.Valid() && codes.decomp && DecOk(codes.maxbits, s) && codes.dict == s.dict && nBits == s.width
    }

    /** Unless this was the first code of the packet or all codes are taken, give out the next code. */
    method Assign(prev: nat, finchar: byte, ghost s: Dec, ghost incode: nat)
      requires Decoding(s) && prev == s.prev && Decodable(codes.maxbits, s, incode)
      requires finchar == CodeText(codes.maxbits, s, incode)[0]
      modifies `nBits, codes, codes.fcode, codes.codem1, codes.cptr, codes.lens
      ensures Decoding(DecStep(codes.maxbits, s, incode))
    {
      codes.Largest();
      hide CodeTable.Valid, CodeText, DictOk, WidthOk;
      if prev != CLEAR && codes.maxEnt < MaxCode(codes.maxbits) {
        var hval;
        ghost var n;
        hval, n := codes.FindFree(prev, finchar);
        codes.NewCode(hval, prev, finchar, n);
        codes.Largest();
        if codes.maxEnt >= MaxCode(nBits) && codes.maxEnt < MaxCode(codes.maxbits) {
          nBits := nBits + 1;
        }
      }
    }

    /** The loop of bsd_decompress over the octets of the codes. */
    method ReadCodes(payload: seq<byte>, ghost start: Dec) returns (stop: Stop, out: seq<byte>, ghost end: DecodeEnd)
      requires Decoding(start) && start.prev == CLEAR && start.out == []
      modifies `nBits, codes, codes.fcode, codes.codem1, codes.cptr, codes.lens
      ensures end == Decode(codes.maxbits, mru, start, Unpack(payload))
      ensures Decoding(end.s) && out == end.s.out && stop == StopOf(end)
    {
      hide CodeTable.Valid, Unpack, Decode, DecStep, CodeText, DictOk, WidthOk, Holds, Pow2, Val, Reading, Expand;
      var accm, bitno, prev := 0, 32, CLEAR;
      out := [];
      ghost var s, pending := start, [];
      NothingHeld();
      WidthRange(codes.maxbits, start);
      codes.Largest();
      StartReading(codes.maxbits, mru, start, Unpack(payload));
      end := Decode(codes.maxbits, mru, start, Unpack(payload));
      assert pending + Unpack(payload[0..]) == Unpack(payload) by { assert payload[0..] == payload; }
      var i := 0;
      while i < |payload|
        invariant 0 <= i <= |payload|
        invariant Decoding(s) && out == s.out && codes.maxEnt == MaxEnt(s.dict)
        invariant if prev > codes.maxEnt then prev == s.prev + 1 && s.prev != CLEAR else prev == s.prev
        invariant Holds(accm, bitno, pending) && |pending| < s.width <= MAX_BITS && bitno == 32 - |pending|
        invariant end == Reading(codes.maxbits, mru, prev > codes.maxEnt, s, pending + Unpack(payload[i..]))
      {
        ghost var rest := Unpack(payload[i + 1..]);
        NextOctet(payload, i, pending);
        accm, bitno, pending := GetOctet(accm, bitno, payload[i], pending);
        i := i + 1;
        if 32 - nBits < bitno {
          continue;
        }
        var incode;
        ghost var bits := pending + rest;
        NextCode(pending, rest, nBits);
        incode, accm, bitno, pending := GetCode(accm, bitno, nBits, pending);
        ReadNext(codes.maxbits, mru, prev > codes.maxEnt, s, bits);
        codes.Largest();
        if incode == CLEAR {
          stop := if i < |payload| then BadCode else SawClear;
          return;
        }
        if incode > codes.maxEnt + 2 || incode > MaxCode(codes.maxbits) || (incode > codes.maxEnt && prev == CLEAR) {
          stop := BadCode;
          return;
        }
        if prev > codes.maxEnt {
          stop := AfterNoEntry(incode, |out|, s);
          return;
        }
        ghost var taken := Taken(s, incode);
        var text := TextOf(incode, prev, s);
        if |out| + |text| > mru + 1 {
          stop := BadCode;
          return;
        }
        Assign(prev, text[0], s, taken);
        out := out + text;
        DecStepIs(codes.maxbits, s, taken);
        s := DecStep(codes.maxbits, s, taken);
        WidthRange(codes.maxbits, s);
        codes.Largest();
        prev := incode;
      }
      LastBits(codes.maxbits, mru, prev > codes.maxEnt, s, pending, payload[i..]);
      stop := EndOfPacket;
    }

    /** A code in range that follows one without an entry. */
    method AfterNoEntry(incode: nat, len: nat, ghost s: Dec) returns (stop: Stop)
      requires Decoding(s) && incode != CLEAR && incode <= MaxCode(codes.maxbits)
      ensures stop == if incode <= MaxEnt(s.dict) && len + |BsdSpec.Expand(s.dict, incode)| > mru + 1 then BadCode
                      else NoSuchCode
    {
      codes.Largest();
      hide CodeTable.Valid;
      stop := NoSuchCode;
      if incode <= codes.maxEnt {
        var text := codes.Expand(incode);
        if len + |text| > mru + 1 {
          stop := BadCode;
        }
      }
    }

    /** The text of a code; any code above the largest is taken for the KwKwK string. */
    method TextOf(incode: nat, prev: nat, ghost s: Dec) returns (text: seq<byte>)
      requires Decoding(s) && prev == s.prev && Decodable(codes.maxbits, s, Taken(s, incode))
      ensures text == CodeText(codes.maxbits, s, Taken(s, incode))
    {
      codes.Largest();
      hide CodeTable.Valid;
      if incode > codes.maxEnt {
        text := codes.Expand(prev);
        text := text + [text[0]];
      } else {
        text := codes.Expand(incode);
      }
    }

    /** bsd_decompress */
    method Decompress(msg: seq<byte>) returns (r: Outcome)
      requires Valid() && codes.decomp
      modifies Repr()
      ensures Valid() && (Db(), r) == BsdSpec.Decompress(old(Db()), msg, mru)
    {
      hide CodeTable.Valid, Decode, Unpack, DictOk, WidthOk, BsdSpec.Check;
      if |msg| <= HDRLEN + OVHD {
        return DecompError;
      }
      var number, expected := msg[4] as nat * 256 + msg[5], seqno;
      seqno := (seqno + 1) % 0x10000;
      if number != expected {
        return DecompError;
      }
      var payload := msg[HDRLEN + OVHD..];
      ghost var start := Dec(codes.dict, nBits, CLEAR, []);
      var stop, out;
      ghost var end;
      stop, out, end := ReadCodes(payload, start);
      match stop {
        case BadCode => r := DecompFatalError;
        case NoSuchCode => r := Unspecified;
        case SawClear =>
          Clear();
          var cleared := Check();
          r := Ok([msg[0], msg[1], 0] + out);
        case EndOfPacket =>
          bytesOut := bytesOut + |payload|;
          inCount := inCount + |out|;
          var cleared := Check();
          r := Ok([msg[0], msg[1], 0] + out);
      }
    }
  }

  /** Why the decoding loop ended. */
  datatype Stop = EndOfPacket | SawClear | BadCode | NoSuchCode

  function StopOf(end: DecodeEnd): Stop
  {
    match end
    case Finished(_, cleared) => if cleared then SawClear else EndOfPacket
    case Fatal(_) => BadCode
    case Unassigned(_) => NoSuchCode
  }

  lemma KeyParts(e: Entry)
    requires e.prefix < 0x10000
    ensures Key(e) / 0x10000 == e.suffix && Key(e) % 0x10000 == e.prefix
  {
  }

  lemma ConcludeIs(db: Db, e: Enc, n: nat)
    requires EncOk(db.maxbits, e)
    ensures var (checked, cleared) := BsdSpec.Check(Counted(db, e, n));
            var db' := Conclude(db, e, n).0;
            && DbOk(db')
            && Counted(db, e, n).nBits == e.width && Counted(db, e, n).dict == e.dict
            && (cleared ==> MaxEnt(e.dict) >= MaxCode(db.maxbits))
            && (!cleared ==> checked.nBits == e.width)
            && db' == if cleared then checked else checked.(nBits := EndWidth(db.maxbits, e.dict, e.width))
  {
  }

  lemma MinimalWidth(maxbits: nat)
    requires Sized(maxbits)
    ensures DictOk(maxbits, []) && WidthOk(maxbits, [], INIT_BITS)
  {
    assert Pow2(INIT_BITS) == 512;
    Pow2Monotonic(INIT_BITS, maxbits);
  }

  lemma EncRunStep(maxbits: nat, start: Enc, data: seq<byte>, i: nat)
    requires EncOk(maxbits, start) && i < |data|
    ensures var e := EncRun(maxbits, start, data[..i]);
            && EncRun(maxbits, start, data[..i + 1]) == EncStep(maxbits, e, data[i])
            && var found := Find(e.dict, e.ent, data[i]);
               if found.Some? then EncStep(maxbits, e, data[i]) == e.(ent := found.value)
               else EncStep(maxbits, e, data[i]).bits == Emit(maxbits, e)
  {
    assert data[..i + 1][..i] == data[..i];
  }

  lemma CodeFits(maxbits: nat, e: Enc)
    requires EncOk(maxbits, e)
    ensures e.ent < Pow2(e.width) && Emit(maxbits, e) == e.bits + ToBits(e.ent, e.width)
    ensures CLEAR < Pow2(e.width) && INIT_BITS <= e.width <= MAX_BITS
  {
    Pow2Monotonic(INIT_BITS, e.width);
    assert Pow2(INIT_BITS) == 512;
  }

  /** The array of code lengths is right for every code in use. */
  ghost predicate LensOk(maxbits: nat, lens: seq<nat>, d: Dict)
  {
    && WellFormed(d)
    && |lens| == MaxCode(maxbits) + 1
    && forall code: nat | IsCode(d, code) && code < |lens| :: lens[code] == |Expand(d, code)|
  }

  lemma InitialLens(maxbits: nat, lens: seq<nat>)
    requires |lens| == MaxCode(maxbits) + 1 && forall i | 0 <= i < |lens| :: lens[i] == 1
    ensures LensOk(maxbits, lens, [])
  {
  }

  /** The code lengths stay right when a pair is added. */
  lemma LensExtend(maxbits: nat, lens: seq<nat>, d: Dict, e: Entry)
    requires LensOk(maxbits, lens, d) && IsCode(d, e.prefix) && MaxEnt(d) < MaxCode(maxbits)
    ensures LensOk(maxbits, lens[MaxEnt(d) + 1 := lens[e.prefix] + 1], d + [e])
  {
    var d', lens' := d + [e], lens[MaxEnt(d) + 1 := lens[e.prefix] + 1];
    forall code: nat | IsCode(d', code) && code < |lens'|
      ensures lens'[code] == |Expand(d', code)|
    {
      if code == MaxEnt(d') {
        ExpandExtend(d, d', e.prefix);
      } else {
        ExpandExtend(d, d', code);
      }
    }
  }

  // ----- The bit packer -----

  /** `bits` are the bits of the octets put out and of the accumulator. */
  ghost predicate Packed(buf: seq<byte>, accm: nat, bitno: nat, pending: seq<bool>, bits: seq<bool>)
  {
    && 24 < bitno <= 32
    && Holds(accm, bitno, pending)
    && Unpack(buf) + pending == bits
  }

  lemma NothingPacked()
    ensures Packed([], 0, 32, [], [])
  {
  }

  /** The OUTPUT macro: append one code. */
  method Output(buf: seq<byte>, accm: nat, bitno: nat, ent: nat, width: nat,
                ghost pending: seq<bool>, ghost bits: seq<bool>)
    returns (buf': seq<byte>, accm': nat, bitno': nat, ghost pending': seq<bool>)
    requires Packed(buf, accm, bitno, pending, bits)
    requires INIT_BITS <= width <= MAX_BITS && ent < Pow2(width)
    ensures Packed(buf', accm', bitno', pending', bits + ToBits(ent, width))
    ensures 24 < bitno' <= 32 && 8 * |buf'| + 32 - bitno' == |bits| + width
  {
    hide Pow2, Val, ToBits;
    ghost var code := ToBits(ent, width);
    Push(accm, bitno, pending, code);
    buf', bitno' := buf, bitno - width;
    accm' := ShiftIn(accm, ent, bitno', width);
    pending' := pending + code;
    while bitno' <= 24
      invariant bitno' <= 32 && Holds(accm', bitno', pending')
      invariant Unpack(buf') + pending' == bits + code
    {
      buf', accm', bitno', pending' := PutOctet(buf', accm', bitno', pending');
    }
  }

  /** The PUTBYTE macro and the shift after it. */
  method PutOctet(buf: seq<byte>, accm: nat, bitno: nat, ghost pending: seq<bool>)
    returns (buf': seq<byte>, accm': nat, bitno': nat, ghost pending': seq<bool>)
    requires bitno <= 24 && Holds(accm, bitno, pending)
    ensures bitno' == bitno + 8 && Holds(accm', bitno', pending')
    ensures Unpack(buf') + pending' == Unpack(buf) + pending
  {
    hide Pow2, Val, ToBits;
    WordIsPow2();
    Pop(accm, bitno, pending, 8);
    ValBound(pending[..8]);
    ghost var top := pending[..8];
    var octet: byte := accm / 0x100_0000;
    ValInjective(OctetBits(octet), top);
    buf' := buf + [octet];
    accm' := (accm * 256) % WORD;
    bitno' := bitno + 8;
    pending' := pending[8..];
    assert buf'[..|buf'| - 1] == buf;
    assert pending == top + pending';
  }

  lemma OctetCount(buf: seq<byte>, accm: nat, bitno: nat, pending: seq<bool>, bits: seq<bool>)
    requires Packed(buf, accm, bitno, pending, bits)
    ensures (|bits| + 7) / 8 == |buf| + if bitno < 32 then 1 else 0
  {
  }

  /** Pad the last octet with ones. */
  method PadLast(buf: seq<byte>, accm: nat, bitno: nat, ghost pending: seq<bool>, ghost bits: seq<bool>)
    returns (buf': seq<byte>)
    requires Packed(buf, accm, bitno, pending, bits)
    ensures buf' == Pack(PadOnes(bits))
  {
    hide Pow2, Val, ToBits, PadOnes, Pack;
    buf' := buf;
    if bitno != 32 {
      ghost var ones := OctetBits(255);
      OctetOnes();
      Push(accm, bitno, pending, ones);
      WordIsPow2();
      var filled := ShiftIn(accm, 255, bitno - 8, 8);
      ghost var rest;
      var x, y;
      buf', x, y, rest := PutOctet(buf, filled, bitno - 8, pending + ones);
      assert |Unpack(buf')| == |Unpack(buf)| + 8;
      assert Unpack(buf') == (Unpack(buf') + rest)[..|Unpack(buf')|];
      assert Unpack(buf) + (pending + ones) == bits + ones;
    }
    PaddedIs(bits, Unpack(buf'));
    UnpackPack(PadOnes(bits));
    UnpackInjective(buf', Pack(PadOnes(bits)));
  }

  lemma OctetOnes()
    ensures forall i | 0 <= i < 8 :: OctetBits(255)[i]
  {
    assert OctetBits(255) == [true, true, true, true, true, true, true, true];
  }

  lemma SameMultiple(a: nat, b: nat)
    requires a % 8 == 0 && b % 8 == 0 && a - b < 8 && b - a < 8
    ensures a == b
  {
  }

  lemma PaddedIs(bits: seq<bool>, padded: seq<bool>)
    requires |padded| % 8 == 0 && |bits| <= |padded| < |bits| + 8
    requires forall i | 0 <= i < |padded| :: padded[i] == if i < |bits| then bits[i] else true
    ensures padded == PadOnes(bits)
  {
    var r := PadOnes(bits);
    SameMultiple(|r|, |padded|);
  }

  // ----- The bit unpacker -----

  lemma NothingHeld()
    ensures Holds(0, 32, [])
  {
  }

  lemma NextOctet(payload: seq<byte>, i: nat, pending: seq<bool>)
    requires i < |payload|
    ensures pending + Unpack(payload[i..]) == (pending + OctetBits(payload[i])) + Unpack(payload[i + 1..])
    ensures |Unpack(payload[i + 1..])| == 8 * (|payload| - i - 1)
  {
    UnpackConcat([payload[i]], payload[i + 1..]);
    assert payload[i..] == [payload[i]] + payload[i + 1..];
    assert Unpack([payload[i]]) == OctetBits(payload[i]) by { assert [payload[i]][..0] == []; }
  }

  lemma NextCode(pending: seq<bool>, rest: seq<bool>, width: nat)
    requires width <= |pending|
    ensures (pending + rest)[..width] == pending[..width]
    ensures (pending + rest)[width..] == pending[width..] + rest
  {
  }

  /** Shift one octet into the accumulator below the pending bits. */
  method GetOctet(accm: nat, bitno: nat, octet: byte, ghost pending: seq<bool>)
    returns (accm': nat, bitno': nat, ghost pending': seq<bool>)
    requires Holds(accm, bitno, pending) && bitno >= 8
    ensures Holds(accm', bitno', pending') && pending' == pending + OctetBits(octet) && bitno' == bitno - 8
  {
    hide Pow2, Val;
    Push(accm, bitno, pending, OctetBits(octet));
    bitno' := bitno - 8;
    accm' := ShiftIn(accm, octet, bitno', 8);
    pending' := pending + OctetBits(octet);
  }

  /** Take the next code from the top of the accumulator. */
  method GetCode(accm: nat, bitno: nat, width: nat, ghost pending: seq<bool>)
    returns (incode: nat, accm': nat, bitno': nat, ghost pending': seq<bool>)
    requires Holds(accm, bitno, pending) && width <= |pending|
    ensures incode == Val(pending[..width])
    ensures Holds(accm', bitno', pending') && pending' == pending[width..] && bitno' == bitno + width
  {
    hide Val;
    Pop(accm, bitno, pending, width);
    incode := accm / Pow2(32 - width);
    accm' := (accm * Pow2(width)) % WORD;
    bitno' := bitno + width;
    pending' := pending[width..];
  }

  /** What the rest of the codes come to, the previous one having no entry or having one. */
  function Reading(maxbits: nat, mru: nat, loose: bool, s: Dec, bits: seq<bool>): DecodeEnd
    requires DecOk(maxbits, s)
  {
    if loose then AfterLoose(maxbits, mru, s, bits) else Decode(maxbits, mru, s, bits)
  }

  lemma StartReading(maxbits: nat, mru: nat, s: Dec, bits: seq<bool>)
    requires DecOk(maxbits, s)
    ensures Reading(maxbits, mru, false, s, bits) == Decode(maxbits, mru, s, bits)
  {
  }

  /** One unfolding of Reading. */
  lemma ReadNext(maxbits: nat, mru: nat, loose: bool, s: Dec, bits: seq<bool>)
    requires DecOk(maxbits, s) && |bits| >= s.width && (loose ==> s.prev != CLEAR)
    ensures var code, rest, m := Val(bits[..s.width]), bits[s.width..], MaxEnt(s.dict);
            var r := Reading(maxbits, mru, loose, s, bits);
            if code == CLEAR then
              r == if |rest| >= 8 then Fatal(s) else Finished(s, true)
            else if OutOfRange(maxbits, s, code) then
              r == Fatal(s)
            else if loose then
              r == if code <= m && |s.out| + |Expand(s.dict, code)| > mru + 1 then Fatal(s) else Unassigned(s)
            else
              && Decodable(maxbits, s, Taken(s, code))
              && r == if |s.out| + |CodeText(maxbits, s, Taken(s, code))| > mru + 1 then Fatal(s)
                      else Reading(maxbits, mru, code == m + 2, DecStep(maxbits, s, Taken(s, code)), rest)
  {
  }

  lemma WidthRange(maxbits: nat, s: Dec)
    requires DecOk(maxbits, s)
    ensures INIT_BITS <= s.width <= MAX_BITS
  {
  }

  lemma DecStepIs(maxbits: nat, s: Dec, code: nat)
    requires DecOk(maxbits, s) && Decodable(maxbits, s, code)
    ensures var r := DecStep(maxbits, s, code);
            && r.prev == code && r.out == s.out + CodeText(maxbits, s, code) && s.width <= r.width
            && (code == MaxEnt(s.dict) + 1 ==> MaxEnt(r.dict) == code)
            && (code <= MaxEnt(s.dict) ==> code <= MaxEnt(r.dict))
  {
  }

  lemma LastBits(maxbits: nat, mru: nat, loose: bool, s: Dec, pending: seq<bool>, rest: seq<byte>)
    requires DecOk(maxbits, s) && |pending| < s.width && rest == []
    ensures Reading(maxbits, mru, loose, s, pending + Unpack(rest)) == Finished(s, false)
  {
  }
}
