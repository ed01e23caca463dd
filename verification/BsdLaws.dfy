/**
 What BSD-Compress does, in numbers a peer can check: when a full dictionary is cleared, what is
 counted, how wide the codes are, and which packets go out compressed.
 */
module BsdLaws {
  import opened Arith
  import opened Bits
  import opened BsdSpec
  import opened BsdRoundTrip

  // ----- The ratio check -----

  /** What ageing leaves of a count, if either count has reached 2^23 - 1. */
  function Aged(n: nat, other: nat): (r: nat)
    ensures n < 0x7f_ffff && other < 0x7f_ffff ==> r == n
    ensures n >= 0x7f_ffff || other >= 0x7f_ffff ==> 3 * n <= 4 * r < 3 * n + 4
  {
    if n < 0x7f_ffff && other < 0x7f_ffff then n else (3 * n + 3) / 4
  }

  predicate Full(db: Db) { |db.dict| + 256 >= Pow2(db.maxbits) - 1 }

  lemma QuotientLess(n: nat, d: nat, k: nat)
    requires d > 0
    ensures n / d < k <==> n < k * d
    ensures n / d * d <= n < (n / d + 1) * d
  {
    var q, r := n / d, n % d;
    assert n == q * d + r;
    Distribute(q, 1, d);
    if q < k {
      MulAtMost(q + 1, k, d);
    } else {
      MulAtMost(k, q, d);
    }
  }

  lemma MulAtMost(a: nat, b: nat, d: nat)
    requires a <= b
    ensures a * d <= b * d
  {
  }

  /** Before the checkpoint nothing happens. */
  lemma CheckWaits(db: Db)
    requires db.inCount < db.checkpoint
    ensures Check(db) == (db, false)
  {
  }

  /** At the checkpoint the counts are aged and the next one is 10000 octets on, unless the dictionary is cleared. */
  lemma CheckCounts(db: Db)
    requires db.inCount >= db.checkpoint
    ensures var i, o := Aged(db.inCount, db.bytesOut), Aged(db.bytesOut, db.inCount);
            var (r, cleared) := Check(db);
            && (!cleared ==> r.inCount == i && r.bytesOut == o && r.checkpoint == i + 10000 && r.dict == db.dict)
            && (!cleared && !Full(db) ==> r.ratio == db.ratio)
            && (cleared ==> Full(db) && r.dict == [] && r.nBits == 9 && r.ratio == 0
                            && r.inCount == 0 && r.bytesOut == 0 && r.checkpoint == 10000)
  {
    hide Pow2, Ratio;
  }

  /** A full dictionary is cleared exactly if compression got worse, or there is none. */
  lemma ClearsIff(db: Db)
    requires db.inCount >= db.checkpoint && Full(db)
    ensures var i, o := Aged(db.inCount, db.bytesOut), Aged(db.bytesOut, db.inCount);
            var (r, cleared) := Check(db);
            && (o > 0 ==> (cleared <==> i * 256 < db.ratio * o || i < o))
            && (o == 0 ==> (cleared <==> i * 256 < db.ratio || i == 0))
            && (!cleared && o > 0 ==> r.ratio * o <= 256 * i < (r.ratio + 1) * o)
            && (!cleared && o == 0 ==> r.ratio == 256 * i)
  {
    hide Pow2;
    var i, o := Aged(db.inCount, db.bytesOut), Aged(db.bytesOut, db.inCount);
    assert Renew(db).inCount == i && Renew(db).bytesOut == o;
    if o > 0 {
      QuotientLess(i * 256, o, db.ratio);
      QuotientLess(i * 256, o, 256);
      assert i * 256 < 256 * o <==> i < o;
    }
  }

  // ----- What is counted -----

  /**
   Until the next check, a packet counts with its protocol octet on one side and, on the other, with
   the octets of codes that go out for it.
   */
  lemma AbsorbCounts(db: Db, proto: byte, data: seq<byte>)
    requires DbOk(db) && db.inCount + |data| + 1 < db.checkpoint
    ensures var (r, bits) := Absorb(db, proto, data);
            && r.inCount == db.inCount + |data| + 1
            && r.bytesOut == db.bytesOut + |Pack(PadOnes(bits))|
            && r.seqno == (db.seqno + 1) % 65536 && r.ratio == db.ratio && r.checkpoint == db.checkpoint
  {
    hide EncRun, Pow2, DictOk, WidthOk, ToBits, Pack;
    PackedSize(PadOnes(Absorb(db, proto, data).1));
  }

  lemma {:induction false} PackedSize(bits: seq<bool>)
    requires |bits| % 8 == 0
    ensures 8 * |Pack(bits)| == |bits|
  {
    hide PackOctet;
    if bits != [] {
      PackedSize(bits[..|bits| - 8]);
    }
  }

  // ----- Which packets go out compressed -----

  /** A packet is compressed exactly if its protocol is in range and it gets no longer than it was or may be. */
  lemma SentIff(db: Db, pkt: seq<byte>, maxolen: nat)
    requires DbOk(db)
    ensures var out := Compress(db, pkt, maxolen).2;
            if |pkt| < 4 || pkt[2] != 0 || pkt[3] < 0x21 || pkt[3] > 0xf9 then out.None?
            else
              var payload := Pack(PadOnes(Absorb(db, pkt[3], pkt[4..]).1));
              && (out.Some? <==> |payload| + 6 <= maxolen && |payload| + 6 <= |pkt|)
              && (out.Some? ==> out.value == pkt[..2] + [0, 0xfd, db.seqno / 256, db.seqno % 256] + payload)
  {
    hide Absorb, Pack, PadOnes, DbOk;
  }

  // ----- The width of codes -----

  /** No narrower code would do: width 10 is not used before code 511 is out, and so on. */
  predicate NoWider(d: Dict, width: nat) { width > 9 ==> |d| + 256 >= Pow2(width - 1) - 1 }

  /** Between packets the width is the least for which the next code is below the largest of that width. */
  ghost predicate LeastWidth(db: Db) { DbOk(db) && NoWider(db.dict, db.nBits) }

  lemma NoWiderMore(d: Dict, d2: Dict, width: nat)
    requires NoWider(d, width) && |d| <= |d2|
    ensures NoWider(d2, width)
  {
  }

  lemma StepNoWider(maxbits: nat, e: Enc, c: byte)
    requires EncOk(maxbits, e) && NoWider(e.dict, e.width)
    ensures NoWider(EncStep(maxbits, e, c).dict, EncStep(maxbits, e, c).width)
  {
    hide Pow2, Find, ToBits;
    var r := EncStep(maxbits, e, c);
    NoWiderMore(e.dict, r.dict, e.width);
  }

  lemma {:induction false} RunNoWider(maxbits: nat, e: Enc, data: seq<byte>)
    requires EncOk(maxbits, e) && NoWider(e.dict, e.width)
    ensures NoWider(EncRun(maxbits, e, data).dict, EncRun(maxbits, e, data).width)
  {
    hide EncStep, NoWider, EncOk;
    if |data| > 0 {
      RunNoWider(maxbits, e, data[..|data| - 1]);
      StepNoWider(maxbits, EncRun(maxbits, e, data[..|data| - 1]), data[|data| - 1]);
    }
  }

  /** Every packet keeps it so, compressed or not, and so does clearing. */
  lemma AbsorbLeast(db: Db, proto: byte, data: seq<byte>)
    requires LeastWidth(db)
    ensures LeastWidth(Absorb(db, proto, data).0)
  {
    hide EncRun, Pow2, DictOk, WidthOk, ToBits, EncOk;
    RunNoWider(db.maxbits, EncStart(db, proto), data);
  }

  lemma DecStepNoWider(maxbits: nat, s: Dec, code: nat)
    requires DecOk(maxbits, s) && Decodable(maxbits, s, code) && NoWider(s.dict, s.width)
    ensures NoWider(DecStep(maxbits, s, code).dict, DecStep(maxbits, s, code).width)
  {
    hide Pow2, CodeText, DictOk, WidthOk;
    NoWiderMore(s.dict, DecStep(maxbits, s, code).dict, s.width);
  }

  lemma {:induction false} DecodeNoWider(maxbits: nat, mru: nat, s: Dec, bits: seq<bool>)
    requires DecOk(maxbits, s) && NoWider(s.dict, s.width)
    ensures NoWider(Decode(maxbits, mru, s, bits).s.dict, Decode(maxbits, mru, s, bits).s.width)
    decreases |bits|
  {
    hide DecStep, NoWider, CodeText, Expand, Val, Pow2, DictOk;
    if |bits| >= s.width {
      var code := Val(bits[..s.width]);
      if code != CLEAR && !OutOfRange(maxbits, s, code) {
        assert Decodable(maxbits, s, Taken(s, code));
        DecStepNoWider(maxbits, s, Taken(s, code));
        if code != MaxEnt(s.dict) + 2 {
          DecodeNoWider(maxbits, mru, DecStep(maxbits, s, code), bits[s.width..]);
        }
      }
    }
  }

  /** And so does every message received. */
  lemma DecompressLeast(db: Db, msg: seq<byte>, mru: nat)
    requires LeastWidth(db)
    ensures LeastWidth(Decompress(db, msg, mru).0)
  {
    hide Decode, Unpack, Pow2, DictOk, WidthOk;
    if |msg| > HDRLEN + OVHD {
      DecodeNoWider(db.maxbits, mru, Dec(db.dict, db.nBits, CLEAR, []), Unpack(msg[HDRLEN + OVHD..]));
    }
  }

  lemma InitialLeast(maxbits: nat)
    requires INIT_BITS <= maxbits <= MAX_BITS
    ensures LeastWidth(Initial(maxbits))
  {
    assert Pow2(INIT_BITS) == 512;
    Pow2Monotonic(INIT_BITS, maxbits);
  }

  // ----- What the decompressor refuses -----

  lemma {:induction false} DecodeFits(maxbits: nat, mru: nat, s: Dec, bits: seq<bool>)
    requires DecOk(maxbits, s) && |s.out| <= mru + 1
    ensures |Decode(maxbits, mru, s, bits).s.out| <= mru + 1
    decreases |bits|
  {
    hide DictOk, Val, CodeText;
    if |bits| >= s.width {
      var code := Val(bits[..s.width]);
      if code != CLEAR && !OutOfRange(maxbits, s, code)
         && |s.out| + |CodeText(maxbits, s, Taken(s, code))| <= mru + 1 && code != MaxEnt(s.dict) + 2
      {
        DecodeFits(maxbits, mru, DecStep(maxbits, s, code), bits[s.width..]);
      }
    }
  }

  /** What is handed up has the number expected, the address and control octets it came with, and fits the mru. */
  lemma OkFits(db: Db, msg: seq<byte>, mru: nat)
    requires DbOk(db) && Decompress(db, msg, mru).1.Ok?
    ensures var pkt := Decompress(db, msg, mru).1.pkt;
            && |msg| > 6 && msg[4] as nat * 256 + msg[5] == db.seqno
            && 3 <= |pkt| <= mru + 4 && pkt[0] == msg[0] && pkt[1] == msg[1] && pkt[2] == 0
  {
    hide Decode, Pow2, DictOk, WidthOk, Unpack;
    DecodeFits(db.maxbits, mru, Dec(db.dict, db.nBits, CLEAR, []), Unpack(msg[6..]));
  }

  /** A packet sent compressed is restored by a decompressor in step with it exactly if it fits the mru there. */
  lemma RestoredIff(db: Db, pkt: seq<byte>, maxolen: nat, mru: nat)
    requires DbOk(db) && Compress(db, pkt, maxolen).2.Some?
    ensures Decompress(db, Compress(db, pkt, maxolen).2.value, mru).1 == Ok(pkt) <==> |pkt| <= mru + 4
  {
    hide Compress, Decompress, DbOk;
    if |pkt| <= mru + 4 {
      RoundTrip(db, pkt, maxolen, mru);
    } else if Decompress(db, Compress(db, pkt, maxolen).2.value, mru).1 == Ok(pkt) {
      OkFits(db, Compress(db, pkt, maxolen).2.value, mru);
    }
  }

  /** A CLEAR must be the last code, and no code may be too far above those in use. */
  lemma Refused(maxbits: nat, mru: nat, s: Dec, bits: seq<bool>)
    requires DecOk(maxbits, s) && |bits| >= s.width
    ensures var code, end := Val(bits[..s.width]), Decode(maxbits, mru, s, bits);
            if code == 256 then end == if |bits| >= s.width + 8 then Fatal(s) else Finished(s, true)
            else code > |s.dict| + 258 || code >= Pow2(maxbits) || (code > |s.dict| + 256 && s.prev == 256)
                 ==> end == Fatal(s)
  {
    hide DictOk, WidthOk, Val, CodeText;
  }
}
