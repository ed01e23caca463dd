/**
 What the compression module does with a packet, stated from its octets and
 the flags: which packets leave compressed, which only move the codec, and
 what each CCP packet changes.
 */
module PppCompLaws {
  import opened Bits
  import opened BsdSpec
  import opened BsdLaws
  import opened PppComp

  // ----- Sending -----

  /** While CCP is not up nothing leaves compressed, whatever the other flags and the packet. */
  lemma DownSendsPlain(c: Comp, pkt: seq<byte>)
    requires CompOk(c) && |pkt| >= 4 && !c.isUp
    ensures Transmit(c, pkt).1 == pkt
  {
    hide DbOk, Compress;
    SentIff(c.tx, pkt, 0);
  }

  /** A packet that is neither LCP nor CCP, as the protocol field says. */
  predicate IsData(pkt: seq<byte>)
    requires |pkt| >= 4
  {
    !(pkt[2] == 0xc0 && pkt[3] == 0x21) && !(pkt[2] == 0x80 && pkt[3] == 0xfd)
  }

  lemma IsDataIff(pkt: seq<byte>)
    requires |pkt| >= 4
    ensures IsData(pkt) <==> Protocol(pkt) != PPP_LCP && Protocol(pkt) != PPP_CCP
  {
  }

  /** A running compressor moves on over every data packet, compressed or not, up or down, and over nothing else. */
  lemma SendMovesCodec(c: Comp, pkt: seq<byte>)
    requires CompOk(c) && |pkt| >= 4
    ensures IsData(pkt) ==> Transmit(c, pkt).0 == c.(tx := if c.compRun then Incomp(c.tx, pkt) else c.tx)
    ensures pkt[2] == 0xc0 && pkt[3] == 0x21 ==> Transmit(c, pkt) == (c, pkt)
    ensures pkt[2] == 0x80 && pkt[3] == 0xfd ==> Transmit(c, pkt) == (SeeCcp(c, pkt, false), pkt)
  {
    IsDataIff(pkt);
    hide DbOk, Absorb, SeeCcp;
  }

  /** When a packet leaves compressed, and as what. */
  lemma SentCompressedIff(c: Comp, pkt: seq<byte>)
    requires CompOk(c) && |pkt| >= 4
    ensures var wire := Transmit(c, pkt).1;
            if !c.isUp || !c.compRun || pkt[2] != 0 || pkt[3] < 0x21 || pkt[3] > 0xf9 then wire == pkt
            else
              var payload := Pack(PadOnes(Absorb(c.tx, pkt[3], pkt[4..]).1));
              wire == if |payload| + 2 <= c.mtu && |payload| + 6 <= |pkt|
                      then pkt[..2] + [0, 0xfd, c.tx.seqno / 256, c.tx.seqno % 256] + payload
                      else pkt
  {
    IsDataIff(pkt);
    DownSendsPlainIf(c, pkt);
    hide DbOk, Absorb, Pack, PadOnes, Compress;
    SentIff(c.tx, pkt, c.mtu + HDRLEN);
  }

  lemma DownSendsPlainIf(c: Comp, pkt: seq<byte>)
    requires CompOk(c) && |pkt| >= 4
    ensures !c.isUp ==> Transmit(c, pkt).1 == pkt
  {
    hide CompOk, Transmit;
    if !c.isUp {
      DownSendsPlain(c, pkt);
    }
  }

  // ----- Receiving -----

  /** A compressed packet changes nothing and is handed up as it is unless CCP is up, running and without error. */
  lemma ReceiveStopped(c: Comp, msg: seq<byte>)
    requires CompOk(c) && |msg| >= 4 && msg[2] == 0 && msg[3] == 0xfd
    requires !c.isUp || !c.decompRun || c.error || c.fatalError
    ensures Receive(c, msg) == (c, Passed(msg))
  {
    hide DbOk, Decompress;
  }

  /** One too short to hold anything raises the error. */
  lemma ReceiveShort(c: Comp, msg: seq<byte>)
    requires CompOk(c) && 4 <= |msg| <= 6 && msg[2] == 0 && msg[3] == 0xfd
    requires c.isUp && c.decompRun && !c.error && !c.fatalError
    ensures Receive(c, msg) == (c.(error := true), Passed(msg))
  {
    hide DbOk, Decode;
  }

  /** With a wrong number it raises the error; the number moves on and the dictionary stays. */
  lemma ReceiveOutOfOrder(c: Comp, msg: seq<byte>)
    requires CompOk(c) && |msg| > 6 && msg[2] == 0 && msg[3] == 0xfd
    requires c.isUp && c.decompRun && !c.error && !c.fatalError && msg[4] as nat * 256 + msg[5] != c.rx.seqno
    ensures Receive(c, msg) == (c.(rx := c.rx.(seqno := (c.rx.seqno + 1) % 0x10000), error := true), Passed(msg))
  {
    hide DbOk, Decode;
  }

  /** The running decompressor moves on over every other packet but CCP, up or down, with an error or without. */
  lemma ReceivePlain(c: Comp, msg: seq<byte>)
    requires CompOk(c) && |msg| >= 4 && !(msg[2] == 0 && msg[3] == 0xfd) && !(msg[2] == 0x80 && msg[3] == 0xfd)
    ensures Receive(c, msg) == (c.(rx := if c.decompRun then Incomp(c.rx, msg) else c.rx), Passed(msg))
  {
    hide DbOk, Absorb;
  }

  // ----- CCP packets going by -----

  /** All of the CCP packet is there, as far as its length field says. */
  predicate Complete(pkt: seq<byte>) { |pkt| >= 8 && pkt[6] as nat * 256 + pkt[7] + 4 <= |pkt| }

  /** Conf-Req, Term-Req and Term-Ack in either direction take CCP down and change nothing else. */
  lemma TakesDown(c: Comp, pkt: seq<byte>, rcvd: bool)
    requires CompOk(c) && Complete(pkt) && (pkt[4] == 1 || pkt[4] == 5 || pkt[4] == 6)
    ensures SeeCcp(c, pkt, rcvd) == c.(isUp := false)
  {
  }

  /** The options of the packet: one of BSD-Compress, version 1, with this many bits, and perhaps more behind it. */
  predicate OffersBsd(pkt: seq<byte>, maxbits: nat) {
    && Complete(pkt) && pkt[6] as nat * 256 + pkt[7] >= 7
    && pkt[8] == 21 && pkt[9] == 3 && pkt[10] as nat == 32 + maxbits
  }

  /** A Conf-Ack sent starts the compressor, one received the decompressor, while CCP is open but not up. */
  lemma StartsIff(c: Comp, pkt: seq<byte>, rcvd: bool)
    requires CompOk(c) && Complete(pkt) && pkt[4] == 2
    ensures SeeCcp(c, pkt, rcvd) ==
      if !c.isOpen || c.isUp || !OffersBsd(pkt, if rcvd then c.rx.maxbits else c.tx.maxbits) then c
      else if rcvd then c.(rx := Initial(c.rx.maxbits), decompRun := true, error := false, fatalError := false)
      else c.(tx := Initial(c.tx.maxbits), compRun := true)
  {
    hide DbOk, Initial;
    OffersIff(pkt, c.tx.maxbits);
    OffersIff(pkt, c.rx.maxbits);
    BitsSmall(c);
  }

  lemma BitsSmall(c: Comp)
    requires CompOk(c)
    ensures c.tx.maxbits < 32 && c.rx.maxbits < 32
  {
  }

  lemma OffersIff(pkt: seq<byte>, maxbits: nat)
    requires Complete(pkt)
    ensures maxbits < 32 ==> (OffersBsd(pkt, maxbits) <==> HasOption(pkt) && OptionsOk(OptionsOf(pkt), maxbits))
  {
    var clen := CcpLength(pkt);
    if clen >= 7 {
      var opts := OptionsOf(pkt);
      assert opts[0] == pkt[8] && opts[1] == pkt[9] && opts[2] == pkt[10];
    }
  }

  /** A Reset-Ack counts while CCP is up: sent it resets the compressor, received the decompressor and the error. */
  lemma ResetsIff(c: Comp, pkt: seq<byte>, rcvd: bool)
    requires CompOk(c) && Complete(pkt) && pkt[4] == 15
    ensures SeeCcp(c, pkt, rcvd) ==
      if !c.isUp then c
      else if rcvd then
        if c.decompRun then c.(rx := Initial(c.rx.maxbits), error := false) else c
      else if c.compRun then c.(tx := Initial(c.tx.maxbits)) else c
  {
    ResetOk(c.tx);
    ResetOk(c.rx);
    hide DbOk, Initial, Reset;
  }

  /** All other CCP packets, and those cut short, go by without effect. */
  lemma GoesBy(c: Comp, pkt: seq<byte>, rcvd: bool)
    requires CompOk(c) && (!Complete(pkt) || pkt[4] !in {1, 2, 5, 6, 15})
    ensures SeeCcp(c, pkt, rcvd) == c
  {
    hide DbOk, Initial, Reset;
  }
}
