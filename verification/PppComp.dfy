/**
 The compression module of modules/ppp_comp.c: which packets go through the
 compressor and the decompressor, and how CCP packets passing by in either
 direction initialise and reset them.
 */
module PppComp {
  import opened Bits
  import opened BsdSpec

  const PPP_LCP := 0xc021
  const PPP_CCP := 0x80fd
  const CCP_HDRLEN := 4
  const CCP_OPT_MINLEN := 2
  const CCP_CONFREQ := 1
  const CCP_CONFACK := 2
  const CCP_TERMREQ := 5
  const CCP_TERMACK := 6
  const CCP_RESETREQ := 14
  const CCP_RESETACK := 15
  const CI_BSD_COMPRESS := 21
  const CILEN_BSD_COMPRESS := 3

  /** The flags of comp_state that matter here, and the two codec states. */
  datatype Comp = Comp(
    isOpen: bool,
    isUp: bool,
    compRun: bool,
    decompRun: bool,
    error: bool,
    fatalError: bool,
    mtu: nat,
    mru: nat,
    tx: Db,
    rx: Db)

  predicate CompOk(c: Comp) { DbOk(c.tx) && DbOk(c.rx) }

  /** The options bsd_init accepts: BSD-Compress, version 1, with this dictionary size. */
  predicate OptionsOk(opts: seq<byte>, maxbits: nat)
  {
    && |opts| >= CILEN_BSD_COMPRESS
    && opts[0] == CI_BSD_COMPRESS
    && opts[1] == CILEN_BSD_COMPRESS
    && opts[2] / 32 == 1
    && opts[2] % 32 == maxbits
  }

  function CcpLength(pkt: seq<byte>): nat
    requires |pkt| >= HDRLEN + CCP_HDRLEN
  {
    pkt[6] as nat * 256 + pkt[7]
  }

  /** The module looks at a CCP packet only if all of it is there. */
  predicate WholeCcp(pkt: seq<byte>)
  {
    |pkt| >= HDRLEN + CCP_HDRLEN && CcpLength(pkt) <= |pkt| - HDRLEN
  }

  predicate IsResetAck(pkt: seq<byte>)
  {
    WholeCcp(pkt) && Protocol(pkt) == PPP_CCP && pkt[HDRLEN] == CCP_RESETACK
  }

  /** Does a Conf-Ack carry an option, completely? */
  predicate HasOption(pkt: seq<byte>)
    requires WholeCcp(pkt)
  {
    && CcpLength(pkt) >= CCP_HDRLEN + CCP_OPT_MINLEN
    && CcpLength(pkt) >= CCP_HDRLEN + pkt[HDRLEN + CCP_HDRLEN + 1]
  }

  function OptionsOf(pkt: seq<byte>): seq<byte>
    requires WholeCcp(pkt) && CcpLength(pkt) >= CCP_HDRLEN
  {
    pkt[HDRLEN + CCP_HDRLEN..HDRLEN + CcpLength(pkt)]
  }

  /** ppp_comp_ccp: a CCP packet goes by, received or being sent. */
  function SeeCcp(c: Comp, pkt: seq<byte>, rcvd: bool): (r: Comp)
    requires CompOk(c)
    ensures CompOk(r)
  {
    if !WholeCcp(pkt) then c
    else if pkt[HDRLEN] in {CCP_CONFREQ, CCP_TERMREQ, CCP_TERMACK} then c.(isUp := false)
    else if pkt[HDRLEN] == CCP_CONFACK then
      if c.isOpen && !c.isUp && HasOption(pkt) then
        InitialOk(c.tx.maxbits);
        InitialOk(c.rx.maxbits);
        if !rcvd then
          if OptionsOk(OptionsOf(pkt), c.tx.maxbits) then c.(tx := Initial(c.tx.maxbits), compRun := true) else c
        else if OptionsOk(OptionsOf(pkt), c.rx.maxbits) then
          c.(rx := Initial(c.rx.maxbits), error := false, fatalError := false, decompRun := true)
        else c
      else c
    else if pkt[HDRLEN] == CCP_RESETACK && c.isUp then
      ResetOk(c.tx);
      ResetOk(c.rx);
      if !rcvd then if c.compRun then c.(tx := Reset(c.tx)) else c
      else if c.decompRun then c.(rx := Reset(c.rx), error := false) else c
    else c
  }

  lemma InitialOk(maxbits: nat)
    requires INIT_BITS <= maxbits <= MAX_BITS
    ensures DbOk(Initial(maxbits))
  {
    assert Pow2(INIT_BITS) == 512;
    Pow2Monotonic(INIT_BITS, maxbits);
  }

  lemma ResetOk(db: Db)
    requires DbOk(db)
    ensures DbOk(Reset(db)) && Reset(db) == Initial(db.maxbits)
  {
    InitialOk(db.maxbits);
  }

  /** ppp_comp_wsrv for a packet with a complete header: the new state and what goes on the wire. */
  function Transmit(c: Comp, pkt: seq<byte>): (r: (Comp, seq<byte>))
    requires CompOk(c) && |pkt| >= HDRLEN
    ensures CompOk(r.0)
  {
    if Protocol(pkt) == PPP_CCP then (SeeCcp(c, pkt, false), pkt)
    else if Protocol(pkt) != PPP_LCP && c.compRun then
      var (tx, total, out) := Compress(c.tx, pkt, if c.isUp then c.mtu + HDRLEN else 0);
      (c.(tx := tx), if out.Some? then out.value else pkt)
    else (c, pkt)
  }

  /** What the module hands up, and whether it came out of the decompressor. */
  datatype Up = Passed(pkt: seq<byte>) | Decompressed(pkt: seq<byte>)

  /** ppp_comp_rsrv, once the full header has been put back. */
  function Receive(c: Comp, msg: seq<byte>): (r: (Comp, Up))
    requires CompOk(c) && |msg| >= HDRLEN
    ensures CompOk(r.0)
  {
    if Protocol(msg) == PPP_CCP then (SeeCcp(c, msg, true), Passed(msg))
    else if Protocol(msg) == PPP_COMP as nat then
      if c.isUp && c.decompRun && !c.error && !c.fatalError then
        var (rx, outcome) := Decompress(c.rx, msg, c.mru);
        match outcome
        case Ok(pkt) => (c.(rx := rx), Decompressed(pkt))
        case DecompError => (c.(rx := rx, error := true), Passed(msg))
        case DecompFatalError => (c.(rx := rx, fatalError := true), Passed(msg))
        case Unspecified => (c.(rx := rx, fatalError := true), Passed(msg))
      else (c, Passed(msg))
    else if c.decompRun then (c.(rx := Incomp(c.rx, msg)), Passed(msg))
    else (c, Passed(msg))
  }
}
