/**
 struct comp_state of modules/ppp_comp.c as an object that holds the two codec
 objects, proved against the functions of PppComp.
 */
module CompModule {
  import opened Bits
  import opened BsdSpec
  import opened BsdCompress
  import opened PppComp
  import opened PppCompLaws

  class CompState {
    var isOpen: bool
    var isUp: bool
    var compRun: bool
    var decompRun: bool
    var error: bool
    var fatalError: bool
    var mtu: nat
    const xstate: BsdDb
    const rstate: BsdDb

    ghost function Repr(): set<object>
    {
      {this} + xstate.Repr() + rstate.Repr()
    }

    ghost function Value(): Comp
      reads Repr()
    {
      Comp(isOpen, isUp, compRun, decompRun, error, fatalError, mtu, rstate.mru, xstate.Db(), rstate.Db())
    }

    ghost predicate Valid()
      reads Repr()
    {
      && xstate.Repr() !! rstate.Repr()
      && this !in xstate.Repr() && this !in rstate.Repr()
      && xstate.Valid() && rstate.Valid()
      && rstate.codes.decomp
    }

    /** Both codecs are allocated; CCP is not open yet. */
    constructor (txbits: nat, rxbits: nat, mtu: nat, mru: nat)
      requires INIT_BITS <= txbits <= MAX_BITS && INIT_BITS <= rxbits <= MAX_BITS
      ensures Valid() && fresh(Repr())
      ensures Value() == Comp(false, false, false, false, false, false, mtu, mru, Initial(txbits), Initial(rxbits))
    {
      hide DbOk, CodeTable.Valid, Initial;
      isOpen, isUp, compRun, decompRun, error, fatalError := false, false, false, false, false, false;
      this.mtu := mtu;
      xstate := new BsdDb(txbits, 0, false);
      rstate := new BsdDb(rxbits, mru, true);
    }

    /** ppp_comp_ccp */
    method SeeCcp(pkt: seq<byte>, rcvd: bool)
      requires Valid()
      modifies Repr()
      ensures Valid() && Value() == PppComp.SeeCcp(old(Value()), pkt, rcvd)
    {
      hide DbOk, CodeTable.Valid;
      if |pkt| < HDRLEN + CCP_HDRLEN {
        return;
      }
      var clen := CcpLength(pkt);
      if clen > |pkt| - HDRLEN {
        return;
      }
      var code := pkt[HDRLEN];
      if code == CCP_CONFREQ || code == CCP_TERMREQ || code == CCP_TERMACK {
        isUp := false;
      } else if code == CCP_CONFACK {
        if isOpen && !isUp && HasOption(pkt) {
          var opts := OptionsOf(pkt);
          if !rcvd {
            if OptionsOk(opts, xstate.codes.maxbits) {
              xstate.Init();
              compRun := true;
            }
          } else if OptionsOk(opts, rstate.codes.maxbits) {
            rstate.Init();
            error, fatalError, decompRun := false, false, true;
          }
        }
      } else if code == CCP_RESETACK {
        if isUp {
          if !rcvd {
            if compRun {
              xstate.Reset();
            }
          } else if decompRun {
            rstate.Reset();
            error := false;
          }
        }
      }
    }

    /** The compression part of ppp_comp_wsrv for one packet. */
    method Transmit(pkt: seq<byte>) returns (wire: seq<byte>)
      requires Valid() && |pkt| >= HDRLEN
      modifies Repr()
      ensures Valid() && (Value(), wire) == PppComp.Transmit(old(Value()), pkt)
      ensures !old(isUp) ==> wire == pkt
    {
      hide DbOk, CodeTable.Valid, BsdSpec.Compress, PppComp.SeeCcp;
      DownSendsPlainIf(Value(), pkt);
      wire := pkt;
      var proto := Protocol(pkt);
      if proto == PPP_CCP {
        SeeCcp(pkt, false);
      } else if proto != PPP_LCP && compRun {
        var total, out := xstate.Compress(pkt, if isUp then mtu + HDRLEN else 0);
        if out.Some? {
          wire := out.value;
        }
      }
    }

    /** The decompression part of ppp_comp_rsrv for one packet. */
    method Receive(msg: seq<byte>) returns (up: Up)
      requires Valid() && |msg| >= HDRLEN
      modifies Repr()
      ensures Valid() && (Value(), up) == PppComp.Receive(old(Value()), msg)
    {
      hide DbOk, CodeTable.Valid, BsdSpec.Decompress, PppComp.SeeCcp, BsdSpec.Incomp;
      up := Passed(msg);
      var proto := Protocol(msg);
      if proto == PPP_CCP {
        SeeCcp(msg, true);
      } else if proto == PPP_COMP as nat {
        if isUp && decompRun && !error && !fatalError {
          var rv := rstate.Decompress(msg);
          match rv {
            case Ok(pkt) => up := Decompressed(pkt);
            case DecompError => error := true;
            case DecompFatalError => fatalError := true;
            case Unspecified => fatalError := true;
          }
        }
      } else if decompRun {
        rstate.Incomp(msg);
      }
    }
  }
}
