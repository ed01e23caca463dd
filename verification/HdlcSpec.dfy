/**
 Asynchronous HDLC framing (section 4.2 of RFC 1662) on values: the encoder and
 the streaming receiver of modules/ppp_ahdlc.c, and the second receiver in
 pppd/demand.c.
 */
module HdlcSpec {
  import opened Wrappers
  import Fcs

  type octets = seq<bv8>
  type AsyncMap = m: seq<bv32> | |m| == 8 witness [0, 0, 0, 0, 0, 0, 0, 0]

  const FLAG: bv8 := 0x7e
  const ESCAPE: bv8 := 0x7d
  const TRANS: bv8 := 0x20
  const PPP_MRU := 1500
  const HDRLEN := 4
  const FCSLEN := 2

  predicate Bit(w: bv32, c: bv8) { w & ((1 as bv32) << (c & 0x1f)) != 0 }

  function WordOf(c: bv8): bv3 { (c >> 5) as bv3 }

  /** IN_TX_MAP */
  predicate InTxMap(c: bv8, m: AsyncMap)
  {
    Bit(m[WordOf(c) as int], c)
  }

  /** IN_RX_MAP */
  predicate InRxMap(c: bv8, m: bv32)
  {
    c < 0x20 && m & ((1 as bv32) << c) != 0
  }

  // ----- The encoder -----

  /** LCP packets with codes 1 to 7 are sent with all control characters escaped. */
  predicate IsLcp(frame: octets)
  {
    && |frame| > 4
    && frame[0] == 0xff && frame[1] == 0x03 && frame[2] == 0xc0 && frame[3] == 0x21
    && 1 <= frame[4] <= 7
  }

  function MapFor(frame: octets, m: AsyncMap): AsyncMap
  {
    if IsLcp(frame) then m[0 := 0xffffffff] else m
  }

  function StuffOctet(c: bv8, m: AsyncMap): octets
  {
    if InTxMap(c, m) then [ESCAPE, c ^ TRANS] else [c]
  }

  function Stuff(data: octets, m: AsyncMap): octets
  {
    if |data| == 0 then [] else Stuff(data[..|data| - 1], m) + StuffOctet(data[|data| - 1], m)
  }

  /** The frame with its FCS. */
  function Checked(frame: octets): octets { frame + Fcs.Trailer(Fcs.Of(Fcs.INIT, frame)) }

  /** ahdlc_encode: `lead` says whether an opening flag is sent. */
  function Encode(frame: octets, m: AsyncMap, lead: bool): octets
  {
    if |frame| < HDRLEN then []
    else (if lead then [FLAG] else []) + Stuff(Checked(frame), MapFor(frame, m)) + [FLAG]
  }

  /** The size of the buffer ahdlc_encode allocates. */
  function Allocated(frame: octets): nat { 2 * |frame| + 4 * FCSLEN + 2 }

  // ----- The receiver -----

  /** Fields of ahdlc_state the receiver uses; buf is None while there is no receive buffer. */
  datatype Rx = Rx(flush: bool, escaped: bool, buf: Option<octets>, size: nat, fcs: bv16)

  datatype Event = Frame(data: octets) | InputError

  function BufferSize(mru: nat): nat { (if mru < PPP_MRU then PPP_MRU else mru) + 32 }

  /** What adjmsg leaves of a buffer when it takes the FCS off. */
  function DropFcs(buf: octets): octets { if |buf| < FCSLEN then buf else buf[..|buf| - FCSLEN] }

  /** The buffer a data octet goes to; one is allocated if there is none. */
  function Ready(s: Rx, mru: nat): (r: Rx)
    ensures r.buf.Some?
  {
    if s.buf.Some? then s else Rx(false, false, Some([]), BufferSize(mru), Fcs.INIT)
  }

  function Store(s: Rx, c: bv8): Rx
    requires s.buf.Some?
  {
    if |s.buf.value| < s.size then s.(fcs := Fcs.Step(s.fcs, c), buf := Some(s.buf.value + [c]))
    else s.(buf := None, flush := true)
  }

  /** ahdlc_decode for one octet. */
  function RxStep(s: Rx, c: bv8, raccm: bv32, mru: nat): (Rx, seq<Event>)
  {
    if c == FLAG then
      if s.flush || s.buf.None? || |s.buf.value| == 0 then (s.(flush := false), [])
      else if s.fcs == Fcs.GOOD then (s.(buf := None), [Frame(DropFcs(s.buf.value))])
      else (s.(buf := None, flush := false, escaped := false), [InputError])
    else if s.flush then (s, [])
    else
      var r := Ready(s, mru);
      if c == ESCAPE then (r.(escaped := true), [])
      else if r.escaped then (Store(r.(escaped := false), c ^ TRANS), [])
      else if InRxMap(c, raccm) then (r, [])
      else (Store(r, c), [])
  }

  function RxRun(s: Rx, input: octets, raccm: bv32, mru: nat): (Rx, seq<Event>)
  {
    if |input| == 0 then (s, [])
    else
      var (s1, ev1) := RxRun(s, input[..|input| - 1], raccm, mru);
      var (s2, ev2) := RxStep(s1, input[|input| - 1], raccm, mru);
      (s2, ev1 + ev2)
  }

  // ----- The receiver of pppd/demand.c -----

  const FRAMEMAX := PPP_MRU + HDRLEN + FCSLEN

  datatype Loop = Loop(escape: bool, flush: bool, frame: octets, fcs: bv16)

  /** loop_chars for one octet; the frames are what loop_frame is called with. */
  function LoopStep(s: Loop, c: bv8): (Loop, seq<octets>)
  {
    if c == FLAG then
      (Loop(false, false, [], Fcs.INIT),
       if !s.escape && !s.flush && |s.frame| > 2 && s.fcs == Fcs.GOOD then [s.frame[..|s.frame| - 2]] else [])
    else if s.flush then (s, [])
    else if !s.escape && c == ESCAPE then (s.(escape := true), [])
    else
      var d := if s.escape then c ^ TRANS else c;
      if |s.frame| >= FRAMEMAX then (s.(escape := false, flush := true), [])
      else (Loop(false, false, s.frame + [d], Fcs.Step(s.fcs, d)), [])
  }

  function LoopRun(s: Loop, input: octets): (Loop, seq<octets>)
  {
    if |input| == 0 then (s, [])
    else
      var (s1, fs1) := LoopRun(s, input[..|input| - 1]);
      var (s2, fs2) := LoopStep(s1, input[|input| - 1]);
      (s2, fs1 + fs2)
  }
}
