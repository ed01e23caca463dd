/**
 The aged counters of BSD-Compress are 32-bit words in the source.  Over every
 run of packets of at most 65536 octets they stay far below 2^32, and so does
 the shift of in_count in the ratio check; so the model may use numbers
 without a bound.
 */
module BsdCounters {
  import opened Bits
  import opened BsdSpec

  const WORD := 0x1_0000_0000
  const MAX_PACKET := 0x10000

  /** The counters as the last ratio check left them, plus what came since. */
  ghost predicate CountersOk(db: Db)
  {
    var base := db.checkpoint - CHECK_GAP;
    && 0 <= base <= RATIO_MAX
    && base <= db.inCount < db.checkpoint
    && db.bytesOut <= RATIO_MAX + 2 * (db.inCount - base)
  }

  lemma {:induction false} BitsBound(maxbits: nat, e: Enc, data: seq<byte>)
    requires EncOk(maxbits, e)
    ensures |EncRun(maxbits, e, data).bits| <= |e.bits| + MAX_BITS * |data|
  {
    if |data| > 0 {
      BitsBound(maxbits, e, data[..|data| - 1]);
    }
  }

  /** A packet of n octets never takes more than 2n octets of codes. */
  lemma CountedBound(db: Db, proto: byte, data: seq<byte>)
    requires DbOk(db)
    ensures var e := EncRun(db.maxbits, EncStart(db, proto), data);
            var c := Counted(db, e, |data| + 1);
            && c.inCount == db.inCount + |data| + 1
            && c.bytesOut <= db.bytesOut + 2 * (|data| + 1)
            && c.checkpoint == db.checkpoint
  {
    BitsBound(db.maxbits, EncStart(db, proto), data);
  }

  lemma CheckKeeps(db: Db, c: Db, n: nat)
    requires CountersOk(db) && n <= MAX_PACKET
    requires c.inCount == db.inCount + n && c.bytesOut <= db.bytesOut + 2 * n && c.checkpoint == db.checkpoint
    ensures c.inCount < WORD && c.bytesOut < WORD
    ensures Renew(c).checkpoint < WORD
    ensures c.inCount >= c.checkpoint ==> Age(c).inCount <= RATIO_MAX && Age(c).inCount * RATIO_SCALE < WORD
    ensures CountersOk(Check(c).0)
  {
    hide Ratio;
  }

  /** Every packet, compressed or only absorbed, keeps the counters in range. */
  lemma AbsorbKeeps(db: Db, proto: byte, data: seq<byte>)
    requires DbOk(db) && CountersOk(db) && |data| < MAX_PACKET
    ensures var e := EncRun(db.maxbits, EncStart(db, proto), data);
            var c := Counted(db, e, |data| + 1);
            && c.inCount < WORD && c.bytesOut < WORD && Renew(c).checkpoint < WORD
            && (c.inCount >= c.checkpoint ==> Age(c).inCount * RATIO_SCALE < WORD)
    ensures CountersOk(Absorb(db, proto, data).0)
  {
    var e := EncRun(db.maxbits, EncStart(db, proto), data);
    var c := Counted(db, e, |data| + 1);
    CountedBound(db, proto, data);
    CheckKeeps(db, c, |data| + 1);
  }

  /** The state of a sender after any run of packets since initialisation. */
  function AbsorbAll(db: Db, pkts: seq<seq<byte>>): (r: Db)
    requires DbOk(db)
    ensures DbOk(r)
  {
    if |pkts| == 0 then db else Incomp(AbsorbAll(db, pkts[..|pkts| - 1]), pkts[|pkts| - 1])
  }

  lemma {:induction false} RunKeeps(db: Db, pkts: seq<seq<byte>>)
    requires DbOk(db) && CountersOk(db)
    requires forall i | 0 <= i < |pkts| :: |pkts[i]| < MAX_PACKET
    ensures CountersOk(AbsorbAll(db, pkts))
  {
    if |pkts| > 0 {
      var before, last := AbsorbAll(db, pkts[..|pkts| - 1]), pkts[|pkts| - 1];
      RunKeeps(db, pkts[..|pkts| - 1]);
      if Compressible(last) {
        AbsorbKeeps(before, last[3], last[HDRLEN..]);
      }
    }
  }

  lemma InitialCounters(maxbits: nat)
    requires INIT_BITS <= maxbits <= MAX_BITS
    ensures DbOk(Initial(maxbits)) && CountersOk(Initial(maxbits))
  {
    assert Pow2(INIT_BITS) == 512;
    Pow2Monotonic(INIT_BITS, maxbits);
  }
}
