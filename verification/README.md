# PPP data path and control protocols: a verified model

The ppp package moves packets through a stack of codecs whose two ends must stay in step, and
runs control protocols that resynchronise and gate them. This project models that logic in
Dafny 4.11 and proves what the two ends promise each other. `dafny verify dfyconfig.toml`
checks all of it.

| part | files | main results |
|---|---|---|
| BSD-Compress (Appendix A of RFC 1977) | `Accumulator`, `Probing`, `BsdSpec`, `BsdTable`, `BsdCompress`, `BsdRoundTrip`, `BsdCounters`, `BsdLaws` | three code paths reach one state after every packet, decompression inverts compression, the table that is cleared without being wiped finds exactly the live codes, no counter overflows; when a full dictionary is cleared |
| compression module and CCP resets (section 3.1 of RFC 1962) | `PppComp`, `PppCompLaws`, `CompState`, `CcpLink`, `CcpWrap`, `CcpReset`, `CcpHandshake` | exactly which losses on a link are noticed, that otherwise nothing wrong is ever handed up, and that over every run the handshake of requests and acknowledgements repairs a loss |
| async HDLC and FCS (section 4.2 and Appendix C.2 of RFC 1662) | `Fcs`, `HdlcSpec`, `HdlcRoundTrip`, `HdlcLaws`, `Hdlc` | streams of frames arrive exactly; exactly which transmit maps allow that; every single damaged octet is detected; exactly how long a frame may be |
| CHAP and phase control (section 4.1 of RFC 1994) | `ChapSpec`, `ChapSafety`, `ChapLaws`, `Chap` | safety of every run of packets and timeouts, of the object as of the specification; the network phase is reached exactly on the successes the link asked for |
| Van Jacobson header compression (section 3.2 of RFC 1144) | `VjSpec`, `VjRoundTrip`, `VjLaws`, `VjStream`, `VjCompress` | exactly when a header is rebuilt bit for bit, and that clean streams always are; every octet of a compressed header |
| deflate and inflate (RFC 1950 and 1951) | `Adler32`, `CodeLengths`, `BitOrder`, `HuffmanCodes`, `HuffmanHeap`, `HuffmanLengths`, `HuffmanOptimal`, `HuffmanTree`, `HuffmanTables`, `HuftWidths`, `HuftBuild`, `HuftGaps`, `HuftDecode`, `Lz77Spec`, `Lz77Chains`, `Lz77Match`, `Lz77`, `InflateSpec`, `InflateCodes`, `InflateFlow`, `InflateWindow`, `InflateBlock`, `DeflateCodes`, `DeflateBlock`, `DeflateTrees`, `DeflateInflate`, `DeflateStream` | what deflate makes of its input and sends in blocks, inflate puts out again, exactly; optimal length-limited canonical codes, exactly when the multi-level tables decode them, exact LZ77 over a sliding window with the longest match of the chain, the fast inflate loop against the states, history insertion |

`Arith`, `Bits` and `Wrappers` (in `Bits`) hold what the parts share.

Code that updates a structure in place is a class or a method with loops, proved against a
specification function on values; the lemmas are about these functions. Message block chains
are octet sequences, and calls into code that is not modelled (clocks, random numbers, the
CHAP verifier, negotiated options) are parameters or events.

Seven promises do not hold of the code as it stands, or only under a condition; each has an
exact statement:

- After the PPPIO_XACCM ioctl every frame arrives if and only if the map given does not escape
  0x5d and covers the receive map: the ioctl removes 0x5e but not 0x5d
  (`HdlcRoundTrip.SetMapFramesIff`; `HdlcRoundTrip.NotDelivered` gives the frame that is lost).
- An LCP frame is sent without control characters if and only if the transmit map escapes none of
  its octets from 0x20 to 0x3f, which escaping makes control characters of
  (`HdlcLaws.LcpPlainIff`; `HdlcLaws.LcpNotPlain` gives a frame).
- A compressed header is rebuilt exactly if and only if reserved bits are unchanged, no special
  mask follows a header with URG, and length and checksum are true (`VjStream.PacketArrivesIff`);
  `VjStream.UrgentFamily` and `VjStream.UrgentLeftOver` give the family of headers for which URG
  is not taken back.
- A good CHAP response is reported if and only if AUTH_DONE is not set; a bad response leaves
  AUTH_DONE set after the link went down, so that the next good response is lost
  (`ChapSafety.GoodResponseReportedIff`, `ChapSafety.SecondChanceLost`).
- BSD-Compress refuses a packet after losses if and only if their number is not a multiple of
  65536 (`CcpLink.RefusedIff`). For every such multiple there is a run in which a packet is
  handed up that was not sent (`CcpWrap.WrongAfterWrap`), and fewer than 65536 losses between
  Reset-Acks exclude it (`CcpLink.FewLostAdmissible`).
- The tables of huft_build decode the codes if and only if behind no table all codes run on for
  more bits than a link consumes (`HuftDecode.Build`); otherwise the string of all ones runs
  into a blank entry, and of a complete set a code is missed (`HuftDecode.MissesCode`). Distance
  lengths 1 and 15 have such a gap (`HuftDecode.BuildSparse`); the sets inflate goes on to use
  have none (`HuftDecode.ShallowTame`, `HuftDecode.CompleteTame`).
- With a check function inflate_addhistory sums the octets it is about to write over instead of
  the data. The check is right if and only if these octets and the data have the same two sums
  modulo 65521 (`InflateWindow.HistoryChecked`), and every window at every position has history
  of every length above zero that leaves a wrong one (`InflateWindow.HistoryUnchecked`).

## Model

| member | source | states |
|---|---|---|
| BsdRoundTrip.LockStep | modules/bsd-comp.c:491-1119 | For every common state, every packet within the mru and every output limit: compressing and only pretending to compress leave the same state, and what is sent decompresses to exactly the packet and to that state again (dictionary, code width, sequence number and all ratio counters); what is sent is never longer than the packet |
| BsdRoundTrip.RoundTrip | modules/bsd-comp.c:491-1119 | The decompressor turns every packet within the mru that the compressor sends back into the original, also with KwKwK codes, width changes, CLEAR and padding, and ends in the compressor's state |
| BsdRoundTrip.Simulate | modules/bsd-comp.c:603-665 | Over any run of octets the decoder that has read the codes sent so far lags one code behind the encoder and is otherwise in step; codes that follow are read from there |
| BsdRoundTrip.CatchUp | modules/bsd-comp.c:978-1097 | Reading the encoder's current code, KwKwK or not, makes the decoder's dictionary, width and text those of the encoder |
| BsdRoundTrip.DecodePacket | modules/bsd-comp.c:667-688 | Decoding all data codes of a packet yields its text and the encoder's dictionary and width, whatever bits follow |
| BsdRoundTrip.DecodeTail | modules/bsd-comp.c:945-964 | Less than eight bits of padding, with or without CLEAR before them, end the packet and nothing else |
| BsdRoundTrip.SameTally | modules/bsd-comp.c:1101-1110 | The receiver's count of octets in and out leads its ratio check to the sender's verdict and state, whether or not a CLEAR was sent |
| BsdRoundTrip.LooseLast | modules/bsd-comp.c:966-1047 | A packet whose last code is two above the largest, which the code does not reject, is read as if it were one above: the same text, dictionary and width, or the same error |
| BsdRoundTrip.CheckIgnoresWidth | modules/bsd-comp.c:673-688 | Checking before or after the width grows makes no difference |
| BsdSpec.ExpandExtend | modules/bsd-comp.c:1014-1047 | Codes given out later never change the string a code stands for |
| BsdSpec.Find | modules/bsd-comp.c:617-640 | The first code given to a pair since the last clear, and none exactly if the pair has none |
| BsdSpec.Check | modules/bsd-comp.c:238-274 | Clears only when all codes are given out, and never changes the sequence number; without a clear the dictionary and the width stay. When it clears is BsdLaws.ClearsIff |
| BsdSpec.Compress | modules/bsd-comp.c:491-712 | Every call keeps the dictionary well formed, the width in range and the sequence number in 16 bits |
| BsdSpec.Incomp | modules/bsd-comp.c:719-829 | Keeps the same invariant for every packet, also those outside the protocol range |
| BsdSpec.Decompress | modules/bsd-comp.c:848-1119 | Keeps the same invariant for every message, whatever its contents and however it ends, a code two above the largest included |
| BsdTable.TakeOverOk | modules/bsd-comp.c:652-662 | Invalidating the slot that held the next code and entering a new pair at a dead slot gives a table of the extended dictionary: every live code stays reachable by its probes |
| BsdTable.EmptyTableOk | modules/bsd-comp.c:212-223 | A cleared table, with all its old contents, is a table of the empty dictionary |
| BsdTable.HitIsFind | modules/bsd-comp.c:621-640 | A live slot with the key of a pair, reached over slots without it, holds exactly the code given to that pair since the last clear |
| BsdTable.MissIsNone | modules/bsd-comp.c:621-642 | A dead slot reached over slots without the key means the pair has had no code since the last clear |
| BsdTable.NotAllLive | modules/bsd-comp.c:629-638 | Probing over live slots only, there is always another slot to probe: the probe loops end |
| BsdTable.MetAt | modules/bsd-comp.c:1014-1016 | The slot of a live code holds its pair, and all slots probed before it were taken by older codes |
| Probing.ProbesDistinct | modules/bsd-comp.c:629-635 | In a table of prime size the probe sequence visits every slot once before it repeats, for every start and displacement |
| Probing.Prime5003 | modules/bsd-comp.c:333-360 | The table size for up to 12 bits is a prime |
| Probing.Prime9001 | modules/bsd-comp.c:333-360 | The table size for 13 bits is a prime |
| Probing.Prime18013 | modules/bsd-comp.c:333-360 | The table size for 14 bits is a prime |
| Probing.Prime35023 | modules/bsd-comp.c:333-360 | The table size for 15 bits is a prime |
| BsdCompress.CodeTable.constructor | modules/bsd-comp.c:320-394 | A new table is one of the empty dictionary |
| BsdCompress.CodeTable.Forget | modules/bsd-comp.c:212-223 | The dictionary is emptied without touching a slot, and the table stays valid |
| BsdCompress.CodeTable.Wipe | modules/bsd-comp.c:426-461 | Resetting lengths and slots gives a table of the empty dictionary |
| BsdCompress.CodeTable.Lookup | modules/bsd-comp.c:617-640 | The probe loop ends and finds the code of a pair if and only if it has one since the last clear; otherwise it stops at a dead slot |
| BsdCompress.CodeTable.FindFree | modules/bsd-comp.c:1061-1074 | The decompressor's probe loop ends at the first dead slot |
| BsdCompress.CodeTable.Seize | modules/bsd-comp.c:652-660 | The stores that invalidate the old holder of a code and enter the new pair make the table TakeOverOk is about |
| BsdCompress.CodeTable.NewCode | modules/bsd-comp.c:1076-1089 | The dictionary grows by exactly the pair, and the table, the back pointers and the lengths stay those of the dictionary |
| BsdCompress.CodeTable.PairOf | modules/bsd-comp.c:1015-1016 | The slot a code points to holds the pair of that code |
| BsdCompress.CodeTable.Expand | modules/bsd-comp.c:1014-1038 | Writing back to front along the prefixes fills exactly the length stored for the code and yields its string |
| BsdCompress.BsdDb.constructor | modules/bsd-comp.c:320-461 | A fresh codec is in the initial state |
| BsdCompress.BsdDb.Clear | modules/bsd-comp.c:212-223 | Refines the clear of the specification on the table in place |
| BsdCompress.BsdDb.Init | modules/bsd-comp.c:426-461 | A codec in use goes back to the initial state |
| BsdCompress.BsdDb.Reset | modules/bsd-comp.c:306-315 | Sequence number and dictionary as after initialisation |
| BsdCompress.BsdDb.Check | modules/bsd-comp.c:238-274 | Refines the ratio check on the counters in place; BsdLaws.CheckCounts and BsdLaws.ClearsIff say when it clears and what it leaves |
| BsdCompress.BsdDb.Compress | modules/bsd-comp.c:491-712 | The byte loop with its hash probes, accumulator and counters yields the specified packet, length and state |
| BsdCompress.BsdDb.Incomp | modules/bsd-comp.c:719-829 | The loop that only counts bits reaches the state the compressor reaches |
| BsdCompress.BsdDb.Decompress | modules/bsd-comp.c:848-1119 | The loop over octets yields the specified outcome and state for every message |
| BsdCompress.BsdDb.EncodeData | modules/bsd-comp.c:603-665 | The loop over a packet leaves the specified dictionary, width and bits, the last of them in the accumulator |
| BsdCompress.BsdDb.CountData | modules/bsd-comp.c:755-813 | The same walk with the bits only counted |
| BsdCompress.BsdDb.GiveOut | modules/bsd-comp.c:645-663 | After a miss the width grows and the next code is given out exactly when the specification says so |
| BsdCompress.BsdDb.SendCodes | modules/bsd-comp.c:597-671 | All codes of a packet are packed and its octets counted |
| BsdCompress.BsdDb.EncodePacket | modules/bsd-comp.c:603-688 | The octets are the specified bits, padded with ones |
| BsdCompress.BsdDb.EndPacket | modules/bsd-comp.c:673-688 | Ratio check and width for the next packet |
| BsdCompress.BsdDb.ReadCodes | modules/bsd-comp.c:918-1098 | Octets are taken in until a code is complete; the loop stops for the specified reason with the specified text, in a table of the specified dictionary |
| BsdCompress.BsdDb.TextOf | modules/bsd-comp.c:978-1047 | The text of a code, including the string that is given out only now; both codes above the largest are taken for that one |
| BsdCompress.BsdDb.Assign | modules/bsd-comp.c:1056-1097 | After each code but the first the decoder's state is the specified one |
| BsdCompress.Output | modules/bsd-comp.c:530-538 | A code goes behind the bits packed so far, and at most seven bits stay in the accumulator |
| BsdCompress.PutOctet | modules/bsd-comp.c:514-528 | Moving the top octet out changes nothing about the bits as a whole |
| BsdCompress.PadLast | modules/bsd-comp.c:676-681 | The last octet is filled with ones; no octet of ones alone is added |
| BsdCompress.GetOctet | modules/bsd-comp.c:931-938 | The octet's bits go behind those pending |
| BsdCompress.GetCode | modules/bsd-comp.c:939-943 | The code is the number its bits denote, most significant first, and the accumulator keeps the rest |
| BsdCompress.LensExtend | modules/bsd-comp.c:1089-1089 | The stored lengths stay those of the strings |
| BsdCounters.CountedBound | modules/bsd-comp.c:668-671 | A packet of n octets never takes more than 2n octets of codes, for any dictionary |
| BsdCounters.CheckKeeps | modules/bsd-comp.c:238-274 | The ageing keeps in_count low enough for the shift by 8 to fit 32 bits |
| BsdCounters.AbsorbKeeps | modules/bsd-comp.c:667-688 | Every packet keeps all counters and the next checkpoint below 2^32, and the shift by 8 never overflows |
| BsdCounters.RunKeeps | modules/bsd-comp.c:238-274 | So does every run of packets |
| BsdCounters.InitialCounters | modules/bsd-comp.c:306-315 | The counters start in that range |
| PppComp.SeeCcp | modules/ppp_comp.c:1041-1103 | Whatever the CCP packet, both codecs stay valid |
| PppComp.Transmit | modules/ppp_comp.c:693-707 | Sending keeps both codecs valid, compressed or not; what leaves, from the flags and the octets, is in PppCompLaws |
| PppComp.Receive | modules/ppp_comp.c:874-915 | Receiving keeps both codecs valid, for any message |
| PppComp.ResetOk | modules/bsd-comp.c:306-315 | A reset codec is in its initial state, whatever it was in before |
| CompModule.CompState.constructor | modules/ppp_comp.c:400-440 | Both codecs start in their initial state, with CCP down |
| CompModule.CompState.SeeCcp | modules/ppp_comp.c:1041-1103 | The flags, errors and codecs are updated in place as specified for every CCP packet in both directions |
| CompModule.CompState.Transmit | modules/ppp_comp.c:693-707 | Refines the specified transmission on the codec in place |
| CompModule.CompState.Receive | modules/ppp_comp.c:874-915 | Refines the specified reception: decompress, absorb, or raise an error and pass the packet on |
| CcpLink.NeverWrong | modules/ppp_comp.c:874-915 | Over every run of sends, losses and deliveries nothing is ever handed up as decompressed that differs from what was sent, and no fatal error occurs, as long as the losses before a compressed packet are none or no multiple of 65536 |
| CcpLink.StepKeeps | modules/ppp_comp.c:874-915 | Each step keeps the invariant that ties the receiver's codec to the position of the sender's stream |
| CcpLink.SendKeeps | modules/ppp_comp.c:693-707 | Sending keeps it, lost or not |
| CcpLink.DeliverKeeps | modules/ppp_comp.c:874-915 | Delivery keeps it |
| CcpLink.ReceiveKeeps | modules/ppp_comp.c:874-915 | For each kind of packet on the link: what is handed up, and that the receiver still tracks the sender |
| CcpLink.CompressedKeepsTracking | modules/ppp_comp.c:887-915 | In step a compressed packet is restored; after a loss it is refused with an error and only the sequence number moves |
| CcpLink.PlainKeepsTracking | modules/bsd-comp.c:719-760 | A packet that came uncompressed moves both ends alike, even out of step |
| CcpLink.RefusedIff | modules/bsd-comp.c:891-899 | On the link: a compressed packet that arrives is refused, and CCP_ERROR raised, if and only if the numbered packets lost since the last reset are not a multiple of 65536 |
| CcpLink.RefusedAt | modules/ppp_comp.c:887-915 | The same of a receiver that tracks the sender with any number of packets missing |
| CcpLink.FewLostAdmissible | modules/bsd-comp.c:891-899 | If fewer than 65536 numbered packets are lost between two Reset-Acks, every run is one NeverWrong is about |
| CcpLink.StepUnderWay | modules/ppp_comp.c:693-707 | The packets lost before the receiver and on the link are those the sender has lost since its last reset |
| CcpLink.LossDetected | modules/ppp_comp.c:887-915 | After a detectable loss the next compressed packet raises CCP_ERROR and is passed on as it came |
| CcpLink.OffUntilReset | modules/ppp_comp.c:887-915 | From then on, over every run in which no Reset-Ack arrives, the error stays and every packet is passed on as it came |
| CcpLink.ResetRestores | modules/ppp_comp.c:1089-1101 | A Reset-Ack puts the receiver into the sender's state, whatever state it was in, and clears the error |
| CcpLink.ResetResynchronises | modules/ppp_comp.c:1089-1101 | On the link both ends reset at the same point of the stream |
| CcpLink.LosslessRoundTrip | modules/ppp_comp.c:874-915 | If nothing is lost the far end hands up exactly the packets sent, in order and without an error |
| CcpLink.StartOk | modules/ppp_comp.c:1041-1103 | The link as CCP opens it meets the invariant |
| CcpWrap.WrongAfterWrap | modules/bsd-comp.c:891-899 | For every k > 0, code width and limits of at least six octets there is a run with 65536 k losses after which the next packet is handed up as decompressed and differs from what was sent: the condition cannot be dropped |
| CcpWrap.TakenWrongly | modules/bsd-comp.c:848-1119 | A receiver with one code fewer than the sender and the same number decompresses a given packet into a different one, without an error |
| CcpWrap.SameBits | modules/bsd-comp.c:603-671 | Two packets, one for the dictionary of the sender and one for that of the receiver, have the same codes |
| CcpWrap.Diverged | modules/ppp_comp.c:693-707 | 65536 k losses, the last of which teaches the sender a code, leave the receiver with the same number and one code fewer |
| CcpWrap.LoseMany | modules/bsd-comp.c:706-712 | A packet that teaches the sender nothing can be lost any number of times, counting the number on |
| PppCompLaws.DownSendsPlain | modules/ppp_comp.c:693-707 | While CCP is not up every packet leaves as it is, whatever the other flags |
| PppCompLaws.SendMovesCodec | modules/ppp_comp.c:693-707 | A running compressor moves over every data packet as if it came uncompressed, sent compressed or not, up or down; LCP changes nothing, CCP only what it says |
| PppCompLaws.SentCompressedIff | modules/ppp_comp.c:693-707 | A packet leaves compressed exactly if CCP is up, the compressor runs, the protocol is in range and the codes make it no longer than it was and than mtu; then it is these octets |
| PppCompLaws.ReceiveStopped | modules/ppp_comp.c:874-915 | A compressed packet is passed up unread, with nothing changed, if CCP is not up, the decompressor is off or an error is set |
| PppCompLaws.ReceiveShort | modules/ppp_comp.c:874-915 | One of at most six octets sets CCP_ERROR and nothing else |
| PppCompLaws.ReceiveOutOfOrder | modules/ppp_comp.c:874-915 | One with another number sets CCP_ERROR; the number expected goes up by one and the dictionary stays |
| PppCompLaws.ReceivePlain | modules/ppp_comp.c:913-915 | The running decompressor moves over every other packet, up or down, with an error or without |
| PppCompLaws.TakesDown | modules/ppp_comp.c:1063-1067 | Codes 1, 5 and 6, sent or received, clear CCP_ISUP and nothing else |
| PppCompLaws.StartsIff | modules/ppp_comp.c:1069-1087 | A Conf-Ack starts a codec afresh exactly if CCP is open and not up and its first option is BSD-Compress, version 1, with the size allocated |
| PppCompLaws.ResetsIff | modules/ppp_comp.c:1089-1101 | A Reset-Ack counts exactly while CCP is up and the codec runs: sent it resets the compressor, received the decompressor and CCP_ERROR, but not CCP_FATALERROR |
| PppCompLaws.GoesBy | modules/ppp_comp.c:1050-1103 | All other CCP packets, and those shorter than their length field, change nothing |
| BsdLaws.CheckWaits | modules/bsd-comp.c:238-274 | Below the checkpoint nothing changes |
| BsdLaws.CheckCounts | modules/bsd-comp.c:238-274 | At the checkpoint both counts are aged to three quarters if one has reached 2^23 - 1, the next checkpoint is 10000 further, and the ratio is kept unless the dictionary is full |
| BsdLaws.ClearsIff | modules/bsd-comp.c:238-274 | A full dictionary is cleared if and only if 256 in / out fell below the last ratio or there is no compression, also when nothing has gone out; otherwise the new ratio is kept, rounded down |
| BsdLaws.AbsorbCounts | modules/bsd-comp.c:667-671 | A packet counts with its protocol octet on the one side and with the octets of its codes on the other |
| BsdLaws.SentIff | modules/bsd-comp.c:491-712 | A packet is compressed if and only if its protocol is 0x21 to 0xf9 and the result fits; then its octets are these |
| BsdLaws.AbsorbLeast | modules/bsd-comp.c:645-688 | No packet leaves the width larger than the codes given out need |
| BsdLaws.DecompressLeast | modules/bsd-comp.c:1091-1095 | Nor does a message received, whatever it holds |
| BsdLaws.InitialLeast | modules/bsd-comp.c:212-223 | At the start the width is the least |
| BsdLaws.RunNoWider | modules/bsd-comp.c:645-651 | Within a packet the width grows only when a code of the next width is due |
| BsdLaws.OkFits | modules/bsd-comp.c:848-1119 | What is handed up came with the number expected, has the address and control it came with, and fits the mru |
| BsdLaws.RestoredIff | modules/bsd-comp.c:848-1119 | A compressed packet is restored by a decompressor in step if and only if it fits the mru there |
| BsdLaws.Refused | modules/bsd-comp.c:945-976 | A CLEAR that is not the last code, and a code too far above those in use or without a previous one, end the packet with a fatal error |
| CcpReset.CcpUnit.constructor | pppd/ccp.c:1411-1460 | A unit with CCP open has nothing pending and meets the invariant of every run |
| CcpReset.CcpUnit.ExtCode | pppd/ccp.c:473-497 | Keeps one timer running exactly while a request is outstanding; requests are answered under their own id while CCP is open, only an acknowledgement of the outstanding request ends the wait, and any other changes nothing |
| CcpReset.CcpUnit.DataInput | pppd/ccp.c:1602-1637 | Keeps that invariant; a fatal error leaves CCP closed with nothing pending, and any other one leaves a request outstanding under one timer that was sent just now, or another failure remembered |
| CcpReset.CcpUnit.RackTimeout | pppd/ccp.c:1643-1654 | Keeps that invariant; the request is sent again, under the same id, and stays outstanding exactly if another failure was remembered |
| CcpReset.CcpUnit.GoDown | pppd/ccp.c:1443-1448 | Keeps that invariant, with no request and no timer left |
| CcpReset.RunKeeps | pppd/ccp.c:1602-1654 | In every run a timer runs exactly while a request is outstanding, and a failure is remembered only then |
| CcpReset.FailureAsks | pppd/ccp.c:1602-1637 | After every failure there is a request on the way, or the pending timeout will send one |
| CcpReset.FailureRemembered | pppd/ccp.c:1643-1654 | A remembered failure is never dropped before a request was sent, over any run without acknowledgement or restart |
| CcpReset.IdsCount | pppd/ccp.c:1626-1634 | Over every run the id goes up by one, modulo 256, with each new request |
| CcpReset.StaleAckIgnored | pppd/ccp.c:485-490 | An acknowledgement of an earlier request, fewer than 256 requests ago, changes nothing |
| CcpHandshake.Handshake | pppd/ccp.c:473-497 | Over every run of data, losses, failures, timeouts and requests: once a request gets through, and its Reset-Ack behind everything then under way, the receiver has no error and its codec is the sender's at that point |
| CcpHandshake.LossRepaired | modules/ppp_comp.c:887-915 | A loss is repaired: the next compressed packet raises the error and a request, and once that request and its Reset-Ack have got through the ends are in step, with nothing wrong handed up on the way |
| CcpHandshake.StaysInStep | modules/ppp_comp.c:874-915 | From then on, over every run without a further loss, each packet is handed up exactly as it was sent |
| CcpHandshake.RunKeeps | modules/ppp_comp.c:874-915 | Over every run both the link and the receiving pppd keep their invariants, and nothing is handed up as decompressed that was not sent |
| CcpHandshake.LossAsks | pppd/ccp.c:1602-1637 | The packet behind a loss is refused, and pppd sends a request, or remembers to if one is outstanding |
| CcpHandshake.ExpireAsks | pppd/ccp.c:1643-1654 | A remembered failure is asked about when the timer fires |
| CcpHandshake.AckArrives | pppd/ccp.c:485-490 | The Reset-Ack on top of the channel puts the ends in step, and ends the wait if it answers the request outstanding |
| CcpHandshake.PacketReached | modules/ppp_comp.c:874-915 | Packets arrive in the order they were sent, whatever happens in between |
| CcpHandshake.RequestReached | pppd/ccp.c:477-483 | Requests are answered in the order they were sent |
| CcpHandshake.StartSound | pppd/ccp.c:1411-1460 | Both ends as CCP comes up meet the invariants |
| Fcs.TableCorrect | modules/ppp_ahdlc.c:205-238 | All 256 entries are the eight-fold shift of their index by the polynomial 0x8408 |
| Fcs.StepInjectiveInOctet | pppd/demand.c:213-213 | Different octets lead to different values |
| Fcs.StepInjectiveInState | pppd/demand.c:213-213 | Different values stay different, so each step is a bijection of the state |
| Fcs.FrameGood | modules/ppp_ahdlc.c:655-699 | A frame followed by its complemented FCS, low octet first, gives 0xf0b8 |
| Fcs.OneOctetChanged | pppd/demand.c:228-255 | Changing one octet always changes the FCS |
| Fcs.DamageDetected | modules/ppp_ahdlc.c:781-781 | A frame with one damaged octet, data or FCS, never gives the good value |
| HdlcLaws.LcpPlainIff | modules/ppp_ahdlc.c:638-653 | An encoded LCP frame holds no octet below 0x20 if and only if the map escapes none of its octets, or of its FCS, from 0x20 to 0x3f |
| HdlcLaws.LcpPlain | modules/ppp_ahdlc.c:638-653 | So it holds none with any map whose second word is zero, as is the one a stream opens with |
| HdlcLaws.LcpNotPlain | modules/ppp_ahdlc.c:638-653 | With a map that escapes the space a Configure-Request goes out with a NUL |
| HdlcLaws.EncodePlainIff | modules/ppp_ahdlc.c:655-699 | When any encoded frame holds no octet below 0x20 |
| HdlcLaws.DeliveredIff | modules/ppp_ahdlc.c:802-853 | A frame arrives if and only if with its FCS it has no more than max(mru, 1500) + 32 octets; a longer one is dropped silently, and the next is received |
| HdlcLaws.LoopDeliveredIff | pppd/demand.c:221-258 | The second receiver delivers frames of up to 1504 octets and drops longer ones |
| HdlcLaws.Abort | modules/ppp_ahdlc.c:755-797 | After a whole frame, escape and flag deliver it at the first receiver and drop it at the second, as section 4.3 of RFC 1662 asks |
| HdlcRoundTrip.StreamRoundTrip | modules/ppp_ahdlc.c:572-859 | For every sequence of frames that fit, with or without leading flags, the clean receiver delivers exactly these frames in order and is clean again |
| HdlcRoundTrip.FrameRoundTrip | modules/ppp_ahdlc.c:572-859 | One frame, encoded with a suitable map, is delivered whole |
| HdlcRoundTrip.OctetSurvivesIff | modules/ppp_ahdlc.c:660-674 | An octet survives stuffing and the receiver if and only if it is escaped to something the receiver neither drops nor takes for a flag or escape, or needs no escape |
| HdlcRoundTrip.MapOkIff | modules/ppp_ahdlc.c:660-674 | All octets survive if and only if the map contains 0x7d, 0x7e and the receiver's map but neither 0x5d nor 0x5e |
| HdlcRoundTrip.SetMapIs | modules/ppp_ahdlc.c:389-392 | What the ioctl leaves: 0x7d and 0x7e escaped, 0x5e not, the rest as given |
| HdlcRoundTrip.SetMapOkIff | modules/ppp_ahdlc.c:389-392 | The octets all survive a map set by the ioctl if and only if the map given does not escape 0x5d and covers the receiver's map |
| HdlcRoundTrip.SetMapFramesIff | modules/ppp_ahdlc.c:389-392 | So after the ioctl every frame that fits, other than LCP, arrives from every clean state if and only if the map given does not escape 0x5d and covers the receiver's map |
| HdlcRoundTrip.FramesArriveIff | modules/ppp_ahdlc.c:660-674 | Every such frame arrives if and only if every octet survives the map |
| HdlcRoundTrip.NotDelivered | modules/ppp_ahdlc.c:722-859 | An octet that does not survive gives a frame that is not delivered: four copies of it |
| HdlcRoundTrip.DamagedFrame | modules/ppp_ahdlc.c:781-795 | A frame received with one octet changed is dropped with an input error |
| HdlcRoundTrip.EncodeFits | modules/ppp_ahdlc.c:597-605 | The stuffed frame never exceeds what was allocated for it |
| HdlcRoundTrip.LoopOctetSurvivesIff | pppd/demand.c:221-258 | The same exact condition for the second receiver |
| HdlcRoundTrip.LoopFrameRoundTrip | pppd/demand.c:221-258 | With it the second receiver delivers an encoded frame whole |
| HdlcRoundTrip.LcpMap | modules/ppp_ahdlc.c:638-653 | Escaping all control characters for LCP changes nothing above them |
| Hdlc.Ahdlc.constructor | modules/ppp_ahdlc.c:267-298 | A stream opens clean, with a map that works |
| Hdlc.Ahdlc.Encode | modules/ppp_ahdlc.c:572-710 | The loop fills a buffer of the allocated size with exactly the specified octets, and never beyond it |
| Hdlc.Ahdlc.PutData | modules/ppp_ahdlc.c:655-674 | Stuffed data and its FCS |
| Hdlc.Ahdlc.PutTrailer | modules/ppp_ahdlc.c:676-699 | Stuffed FCS and closing flag |
| Hdlc.Ahdlc.PutStuffed | modules/ppp_ahdlc.c:664-669 | One octet, escaped or not |
| Hdlc.Ahdlc.Receive | modules/ppp_ahdlc.c:722-859 | The receiver, octet by octet over any input, delivers the specified frames and errors and ends in the specified state |
| Hdlc.Ahdlc.ReceiveOctet | modules/ppp_ahdlc.c:739-854 | One octet of any kind |
| Hdlc.Ahdlc.ReceiveFlag | modules/ppp_ahdlc.c:757-796 | A flag ends a frame, which is delivered or dropped with an error, or only separates frames |
| Hdlc.Ahdlc.MakeReady | modules/ppp_ahdlc.c:802-822 | The receive buffer for a new frame |
| Hdlc.Ahdlc.StoreOctet | modules/ppp_ahdlc.c:839-853 | An octet is stored, or a frame that is too long is flushed |
| Hdlc.LoopReceiver.constructor | pppd/demand.c:82-98 | The second receiver starts with an empty frame |
| Hdlc.LoopReceiver.Chars | pppd/demand.c:221-258 | The loop over the input delivers the specified frames |
| Hdlc.LoopReceiver.Char | pppd/demand.c:226-256 | One octet of any kind |
| Hdlc.InitialMapOk | modules/ppp_ahdlc.c:280-281 | The map a stream opens with lets every octet survive |
| ChapSafety.EveryRunLegal | pppd/chap.c:272-440 | In every run of packets and timeouts: the network phase is entered at most once per link and only after a success for each direction pending, success of the peer is reported only for a verified response to the outstanding challenge, and never after a failure until the link goes down What each direction pending is comes from the event, in ChapLaws.NetworkEarned |
| ChapSafety.StepKeeps | pppd/auth.c:812-1154 | Every single event keeps the invariant that ties the flags to the reports made so far |
| ChapSafety.EveryRunBounded | pppd/chap.c:281-291 | In the log of every run, a challenge is sent at most chap_max_transmits times in a row, or once if that is less than one, before a status is sent or the link goes up or down |
| ChapSafety.StepPaced | pppd/chap.c:281-291 | Every event keeps challenge_xmits equal to the challenges in the log since then |
| ChapSafety.LogGrows | pppd/chap.c:272-440 | No event takes back a report |
| ChapSafety.FirstChallenge | pppd/chap.c:183-237 | Authentication begins with a fresh challenge |
| ChapSafety.GoodResponseReportedIff | pppd/chap.c:407-438 | A good response to the outstanding challenge is reported if and only if AUTH_DONE is not set already |
| ChapSafety.FailureLeavesDone | pppd/chap.c:425-438 | A bad response closes the link, which clears all flags, and then sets AUTH_DONE again |
| ChapSafety.SecondChanceLost | pppd/chap.c:387-438 | So after one failure a good response on the next link is acknowledged but never reported, and the link stays pending |
| ChapLaws.EstablishReports | pppd/auth.c:812-903 | A link comes up with exactly the directions asked for pending and begun, a first challenge exactly if the peer is to authenticate, the network phase at once exactly if nobody is; or it is refused and goes down |
| ChapLaws.TimerReports | pppd/chap.c:271-292 | A server timeout without a challenge out sends a new one under the next id; with one out it repeats the same one, or reports failure after chap_max_transmits |
| ChapLaws.ResponseReports | pppd/chap.c:337-440 | The packets and reports each response leads to, and the flags and timer left, for every state and response |
| ChapLaws.StatusReports | pppd/chap.c:526-566 | Success is reported if and only if a status was waited for, says so and checks, and then the network phase begins exactly if the peer is not pending; any other status awaited ends the link |
| ChapLaws.GivesUp | pppd/chap.c:295-304 | A client timeout, and a protocol reject while a side is unfinished, end the link |
| ChapLaws.NetworkEarned | pppd/auth.c:812-1154 | From any reachable state and over every run until the link is established again: the network phase comes only after a success in each direction the event asked for, and on a link still up it has come exactly if these have |
| ChapLaws.EveryNetworkEarned | pppd/auth.c:812-1154 | The same for the last link_established of every run from the start |
| ChapLaws.NoUp | pppd/auth.c:812-903 | No other event reports the link up |
| Chap.Session.constructor | pppd/chap.c:146-156 | Client and server start cleared, in a state every run may start from |
| Chap.Session.Handle | pppd/chap.c:272-618 | Every event that can happen, handled in place: the log only grows and stays legal and bounded, so the results about runs hold of the object |
| Chap.Session.ServerTimeout | pppd/chap.c:271-292 | A running timer leads to a new challenge, the same one again, or failure after too many, and keeps the object valid |
| Chap.Session.HandleResponse | pppd/chap.c:337-440 | Keeps the object valid; success of the peer is reported only for a response that verifies against the outstanding challenge, under its id |
| Chap.Session.HandleStatus | pppd/chap.c:526-566 | Keeps the object valid; anything but a success that checks closes the link |
| Chap.Session.ClientTimeout | pppd/chap.c:295-304 | Keeps the object valid, and the link is closed |
| Chap.Session.ProtRej | pppd/chap.c:599-618 | Keeps the object valid; if either side is not finished the link is closed |
| Chap.Session.Establish | pppd/auth.c:812-903 | Keeps the object valid; reports the link up as asked, and unless refused exactly the directions asked for are pending |
| VjStream.PacketArrivesIff | modules/vjcompress.c:171-591 | From any state in step: a packet is rebuilt bit for bit if and only if, when it goes as differences, its reserved bits equal the saved ones, no special mask follows a header with URG, its length field is true and its IP checksum valid; and then both ends stay in step |
| VjStream.FreshStreamArrives | modules/vjcompress.c:91-591 | From initialisation on, every stream of packets with clear reserved bits, an urgent pointer exactly with URG, true lengths and checksums arrives exactly, with or without connection ids |
| VjStream.StreamArrives | modules/vjcompress.c:171-591 | So does every such stream from any state in step |
| VjStream.CleanIsExact | modules/vjcompress.c:343-365 | Such packets meet the exact condition, and keep the saved headers so |
| VjStream.RebuiltIff | modules/vjcompress.c:538-581 | The header rebuilt equals the one sent exactly under that condition |
| VjStream.DeltasArrive | modules/vjcompress.c:474-591 | What a compressed packet is turned into, for every pair of headers that can be sent as differences |
| VjStream.WholeArrives | modules/vjcompress.c:415-464 | A packet sent whole arrives, and fills the slot its protocol field names |
| VjStream.RingKept | modules/vjcompress.c:208-262 | Every call leaves each slot in the ring exactly once |
| VjStream.ToFrontOk | modules/vjcompress.c:251-261 | Moving a slot to the front keeps the others in their order |
| VjStream.BothStore | modules/vjcompress.c:379-380 | Both ends store the same header in the same slot |
| VjStream.UrgentLeftOver | modules/vjcompress.c:520-536 | A packet sent with a special mask after an urgent header arrives with URG still set |
| VjStream.UrgentFamily | modules/vjcompress.c:351-365 | Every saved urgent header with data has such a packet |
| VjStream.StartInStep | modules/vjcompress.c:91-113 | Freshly initialised ends are in step |
| VjStream.SlotFilled | modules/vjcompress.c:337-339 | A slot whose header differs little enough was filled at both ends before |
| VjLaws.ChangeOctet | modules/vjcompress.c:290-397 | Each bit of the first octet from the header fields: 1 URG, 2 window, 4 acknowledgement, 8 sequence, 16 PUSH, 32 identification not one more, 64 connection number; 11 and 15 in the low four bits for the two special cases, and when these are |
| VjLaws.DeltasLaid | modules/vjcompress.c:290-406 | The checksum, then urgent pointer, window, acknowledgement, sequence and identification as differences, those that changed, in one octet or behind a zero in two, then the data |
| VjLaws.SentAs | modules/vjcompress.c:171-420 | For every packet and state: whether it goes as it is, whole or compressed, from the fields of the packet and of the connection's slot alone, which slot that is, and the ring, header and connection number left |
| VjLaws.MustSendWholeIff | modules/vjcompress.c:264-365 | Which pairs of headers cannot be sent as differences |
| VjLaws.ChecksumVerifies | modules/vjcompress.c:574-581 | With the checksum computed the words of a header add up to zero in ones complement |
| VjLaws.WordSumConcat | modules/vjcompress.c:574-577 | The sum of words is additive |
| VjLaws.Tossed | modules/vjcompress.c:489-508 | After an error nothing is taken without a connection number, and a number that is no slot is an error |
| VjLaws.Rebuilt | modules/vjcompress.c:474-591 | What is handed up: the data behind the deltas, a length of headers and data, a true checksum; the slot named keeps it and no other changes |
| VjRoundTrip.DecodeEncode | modules/vjcompress.c:119-169 | Every delta is decoded exactly, whatever surrounds it |
| VjRoundTrip.MaskBits | modules/vjcompress.c:326-397 | The change mask is read back as it was written; which field has which bit is VjLaws.ChangeOctet |
| VjRoundTrip.PlusMinus16 | modules/vjcompress.c:147-155 | Differences modulo 2^16 restore the field, and are zero exactly if it did not change |
| VjRoundTrip.PlusMinus32 | modules/vjcompress.c:137-146 | The same modulo 2^32 |
| VjRoundTrip.RestoreSpecial | modules/vjcompress.c:520-536 | The two special masks move sequence and acknowledgement by the data of the last packet |
| VjRoundTrip.RestoreDeltas | modules/vjcompress.c:538-551 | The four deltas in their order restore urgent pointer, window, acknowledgement and sequence |
| VjRoundTrip.RestoreIs | modules/vjcompress.c:510-581 | Restoring from mask and deltas gives the header the packet carried |
| VjRoundTrip.SpecialMoves | modules/vjcompress.c:351-365 | A packet sent with a special mask moves on by just the data of its predecessor |
| VjCompressModule.VjCompress.constructor | modules/vjcompress.c:91-113 | All slots blank and linked into one ring, slot max_state first |
| VjCompressModule.VjCompress.FindSlot | modules/vjcompress.c:208-233 | Walking the ring from the newest slot finds the first that holds the connection, or ends at the oldest |
| VjCompressModule.VjCompress.MoveToFront | modules/vjcompress.c:235-261 | The slot found or reused is first, all others keep their order, and the links still form one ring |
| VjCompressModule.VjCompress.Relink | modules/vjcompress.c:257-261 | The three pointer assignments move a slot from the middle to the front |
| VjCompressModule.VjCompress.CompressTcp | modules/vjcompress.c:171-420 | Search, ring, differences and stored header in place give the specified packet and state; VjLaws.SentAs says which from the fields |
| VjCompressModule.VjCompress.UncompressUncomp | modules/vjcompress.c:436-464 | A whole header is checked and stored |
| VjCompressModule.VjCompress.UncompressTcp | modules/vjcompress.c:474-591 | The header is rebuilt in its slot in place, or the packet refused |
| VjCompressModule.RotateRing | modules/vjcompress.c:243-249 | Moving only last_cs turns the oldest slot into the newest |
| VjCompressModule.RelinkRing | modules/vjcompress.c:257-261 | Relinking keeps one ring through all slots |
| VjCompressModule.InitialRing | modules/vjcompress.c:102-108 | The initial links are one ring |
| VjCompressModule.Collect | modules/vjcompress.c:290-324 | The deltas collected, or that one cannot be expressed |
| VjCompressModule.Differences | modules/vjcompress.c:264-365 | Mask and deltas with the special cases, or that the packet must go whole |
| VjCompressModule.Assemble | modules/vjcompress.c:368-406 | The octets of the compressed packet, whose layout is VjLaws.ChangeOctet and VjLaws.DeltasLaid |
| VjCompressModule.RestoreHeader | modules/vjcompress.c:510-581 | The rebuilt header and where the data starts |
| VjCompressModule.SumHeader | modules/vjcompress.c:574-581 | The ones complement sum folded to 16 bits |
| VjCompressModule.VjCompress.SetNext | modules/vjcompress.c:258-260 | One link changes and nothing else |
| VjCompressModule.VjCompress.StoreHeader | modules/vjcompress.c:379-380 | One saved header changes and nothing else |
| VjCompressModule.RestoreFieldsOf | modules/vjcompress.c:520-551 | The TCP fields by special mask or deltas |
| Adler32.Adler | common/zlib.c:5351-5378 | For every length and every reduced starting value the deferred sums give what reducing at every octet gives, and the result is reduced again |
| Adler32.Block | common/zlib.c:5363-5373 | A block between reductions, sixteen octets at a time, without overflow |
| Adler32.Deferred | common/zlib.c:5374-5375 | Reducing once at the end is the same as reducing at every octet |
| Adler32.NoOverflow | common/zlib.c:5340-5342 | Over 5552 octets from any reduced start neither sum reaches 2^32 |
| Adler32.OfConcat | common/zlib.c:5340-5378 | The checksum of a concatenation continues from that of its first part |
| Adler32.OfSameIff | common/zlib.c:5351-5378 | From any reduced start, equally long data have the same checksum if and only if their plain and their weighted sums agree modulo 65521 |
| Adler32.RawIs | common/zlib.c:5344-5348 | The two running sums in closed form |
| Adler32.OfIs | common/zlib.c:5351-5378 | From 1 the low half is one plus the sum of the octets and the high half their number plus the weighted sum, each modulo 65521 |
| Adler32.Accumulate | common/zlib.c:5344-5348 | One octet into the running sums |
| CodeLengths.TreesRestored | common/zlib.c:2507-2552 | For all code lengths from 0 to 15 the decoder restores both trees exactly from what is sent for them in turn, and reads nothing beyond |
| CodeLengths.SentRestored | common/zlib.c:3874-3917 | From any point of a tree on, whatever follows |
| CodeLengths.RestoreRun | common/zlib.c:2525-2542 | The symbols of one run restore to the run |
| CodeLengths.TreeOk | common/zlib.c:2525-2542 | Every symbol sent is in the alphabet and its extra value fits its bits |
| CodeLengths.TallyIsCount | common/zlib.c:2480-2491 | Tallying a run counts exactly the symbols sent for it |
| CodeLengths.SendTree | common/zlib.c:2507-2552 | The loop sends the specified symbols |
| CodeLengths.ScanTree | common/zlib.c:2462-2501 | The frequencies grow by exactly the number of each symbol send_tree sends |
| CodeLengths.ReadLengths | common/zlib.c:3874-3917 | The repeat-code loop restores as specified, or reports an error |
| CodeLengths.RepeatsMean | common/zlib.c:3891-3916 | Symbol 16 repeats the last length 3 to 6 times, 17 and 18 stand for 3 to 10 and 11 to 138 zeros, and a run beyond the end or without a last length is an error |
| CodeLengths.SendRun | common/zlib.c:2525-2542 | The symbols of one run |
| CodeLengths.AddRun | common/zlib.c:2480-2491 | The counts of one run |
| BitOrder.BiReverse | common/zlib.c:2913-2923 | The number whose bits, sent least significant first, are the code's, most significant first |
| BitOrder.BackIncrement | common/zlib.c:4375-4378 | The bit loop steps from a reversed code to the next one |
| BitOrder.OrAbove | common/zlib.c:2043-2056 | Bits put above those in the buffer follow them |
| HuffmanCodes.GenCodes | common/zlib.c:2333-2365 | Every symbol gets its canonical code, reversed; the 16-bit counters do not overflow |
| HuffmanCodes.NextCodes | common/zlib.c:2343-2348 | The first code of every length |
| HuffmanCodes.Places | common/zlib.c:2333-2365 | A code is a prefix of a bit string exactly if the string's number lies in the code's interval |
| HuffmanCodes.NextOfLength | common/zlib.c:2350-2362 | The next symbol of a length has the next code |
| HuffmanCodes.FirstOfLonger | common/zlib.c:2343-2348 | The first code of a length is the last of the length before, plus one, with zeros behind it |
| HuffmanCodes.FirstOfAll | common/zlib.c:2343-2348 | The first code of the shortest length is zero |
| HuffmanCodes.NextCode | common/zlib.c:2346-2348 | The recurrence gives the first code of each length, in 16 bits |
| HuffmanCodes.FirstFits | common/zlib.c:2346-2348 | The first code of every length fits sixteen bits |
| HuftDecode.Build | common/zlib.c:4191-4392 | For all code lengths: oversubscribed sets are refused, and an incomplete set is reported exactly if it is not a single one-bit code; otherwise the tables decode every code to its symbol and nothing else to a symbol if and only if behind no table all codes run on for more bits than a link consumes (Tame), and if they do not the walk of all ones gets stuck |
| HuftDecode.RightIff | common/zlib.c:4289-4387 | That condition is exact |
| HuftDecode.MissesCode | common/zlib.c:4714-4741 | In such tables of a complete set the code of all ones is not decoded |
| HuftDecode.SparseDistances | common/zlib.c:4445-4445 | Distance lengths 1 and 15, with the six bits inflate_trees_dynamic asks for, are incomplete and not tame |
| HuftDecode.BuildSparse | common/zlib.c:4445-4445 | So they are reported incomplete, and the tables get stuck on all ones |
| HuftDecode.Untamed | common/zlib.c:4263-4269 | Lengths 1, 3, 3, 3, 3 are a complete set that is not tame for tables of one bit, which no caller asks for |
| HuftDecode.TameIff | common/zlib.c:4306-4314 | The codes that fill an incomplete set up do not matter for this |
| HuftDecode.PrefixFree | common/zlib.c:2333-2365 | No code of a set that fits is a prefix of another |
| HuftDecode.ShallowTame | common/zlib.c:4395-4537 | Literal, code-length and fixed trees always meet what the tables need: two levels reach their longest code |
| HuftDecode.CompleteTame | common/zlib.c:4416-4470 | So does every complete set of fewer than 2^(m+1) codes, in particular every distance tree |
| HuftDecode.CodeDecodes | common/zlib.c:4714-4741 | Each code decodes to its symbol through all levels |
| HuftDecode.OnlyCodes | common/zlib.c:4714-4741 | Nothing but codes decodes to a symbol, and every walk ends within the longest length |
| HuftDecode.CompleteIff | common/zlib.c:4390-4391 | The set is complete exactly if no dummy codes had to be counted |
| HuftDecode.Order | common/zlib.c:4272-4286 | Sorting puts the symbols by length, and by number among equal lengths |
| HuftDecode.CountLengths | common/zlib.c:4228-4243 | The number of codes of every length |
| HuftDecode.FindRange | common/zlib.c:4246-4260 | The shortest and the longest length used |
| HuftDecode.Unused | common/zlib.c:4263-4269 | How much of the code space is left, or that it does not suffice |
| HuftDecode.Offsets | common/zlib.c:4272-4277 | Where the symbols of each length start |
| HuftBuild.BuildTables | common/zlib.c:4289-4387 | All codes of all lengths are entered; what the tables would be without the too wide ones decodes everything, and the tables are that but for blanks |
| HuftBuild.NewTable | common/zlib.c:4306-4353 | A new table is linked where the walk of the code needs it, and no code entered before decodes differently |
| HuftBuild.ChooseBits | common/zlib.c:4311-4326 | The table is as wide as the codes that start there need, at most l bits; or as wide as the first code asks for if even that is more |
| HuftBuild.FillCode | common/zlib.c:4355-4373 | The code is entered at every index it begins, and nothing else changes |
| HuftBuild.BackUp | common/zlib.c:4380-4385 | Afterwards the tables on the stack are those on the way to the next code |
| HuftBuild.PlaceCode | common/zlib.c:4302-4386 | One code |
| HuftBuild.PlaceLength | common/zlib.c:4299-4387 | All codes of one length |
| HuftBuild.FillTable | common/zlib.c:4370-4373 | Every stride-th entry, and no other |
| HuftBuild.Advance | common/zlib.c:4375-4385 | The next code and the tables on its way |
| HuftBuild.NewFair | common/zlib.c:4306-4326 | A table is made wider than its link consumes exactly if all codes behind its bits are that much longer |
| HuffmanTables.FillDone | common/zlib.c:4370-4373 | Filling keeps every code decoded and adds the new one |
| HuffmanTables.GrowDone | common/zlib.c:4343-4352 | Growing keeps every code decoded |
| HuffmanTables.Untouched | common/zlib.c:4351-4373 | A walk that avoids the entries that changed ends as before |
| HuffmanTables.OneCode | common/zlib.c:4289-4387 | The places of different codes are disjoint |
| HuffmanLengths.GenBitlen | common/zlib.c:2246-2323 | For every tree with at most 2^max leaves each leaf gets a length from 1 to max and the Kraft sum is exactly one |
| HuffmanLengths.FirstPass | common/zlib.c:2263-2285 | Lengths capped at max exceed the code space by exactly half the overflow |
| HuffmanLengths.ShorterLeaf | common/zlib.c:2293-2294 | While there is overflow some leaf is shorter than max, so the search for it ends |
| HuffmanLengths.Repair | common/zlib.c:2291-2302 | Every round takes two from the overflow and keeps the number of leaves, and in the end the Kraft sum is one |
| HuffmanLengths.Reassign | common/zlib.c:2304-2322 | Every leaf is given a length, as many of each as were counted |
| HuffmanLengths.LengthsFit | common/zlib.c:2349-2353 | Such lengths are a complete code |
| HuffmanLengths.TracksPair | common/zlib.c:2270-2285 | While nothing lies deeper than max every node has its depth for a length |
| HuffmanLengths.GiveLength | common/zlib.c:2271-2279 | One node: its capped length, and the count of leaves and overflow |
| HuffmanLengths.GivePair | common/zlib.c:2270-2285 | Two brothers keep the balance between code space and overflow |
| HuffmanLengths.StartPass | common/zlib.c:2263-2268 | The root has length 0 and the balance holds |
| HuffmanLengths.GiveOut | common/zlib.c:2309-2321 | All leaves of one length |
| HuffmanLengths.PairBalance | common/zlib.c:2270-2285 | Capping two brothers at max adds two to the overflow and exactly one unit of excess |
| HuffmanLengths.LoweredOk | common/zlib.c:2295-2301 | Moving a leaf down and two overflow items up frees one unit and keeps the leaves |
| HuffmanHeap.PqDownHeap | common/zlib.c:2211-2234 | Moving one element down makes a heap from its position on out of one from the next position on, of the same elements |
| HuffmanHeap.Remove | common/zlib.c:2190-2195 | The node removed is the smallest, and the rest is a heap again |
| HuffmanHeap.TopIsLeast | common/zlib.c:2205-2210 | The first node of a heap is the smallest in frequency, and in depth among equals |
| HuffmanTree.BuildTree | common/zlib.c:2375-2456 | For all frequencies: every used symbol gets a length from 1 to max and every other none, the lengths make a complete code, the codes are the canonical ones, and frequencies are forced only if fewer than two symbols are used. If the frequencies together fit 16 bits, no prefix code costs less than the depths of the tree, and unless one is above max the depths are the lengths |
| HuffmanTree.MergeTwo | common/zlib.c:2420-2445 | The two smallest nodes, and no others, become sons of a new node with the sum of their frequencies, and the heap is one again |
| HuffmanTree.Heapify | common/zlib.c:2415-2418 | All symbols in use, as a heap |
| HuffmanTree.Force | common/zlib.c:2401-2413 | At least two symbols, adding only unused ones |
| HuffmanTree.FinalList | common/zlib.c:2428-2447 | The nodes stand root first, each pair of sons behind their father |
| HuffmanTree.LeafBound | common/zlib.c:2375-2456 | There are never more leaves than symbols |
| HuffmanTree.BestAfter | common/zlib.c:2420-2445 | Each merge keeps both: no code of the symbols is cheaper than the merges so far and the nodes left, and the tree costs exactly that |
| HuffmanTree.TreeBest | common/zlib.c:2420-2447 | So the depths of the symbols in the whole tree are an optimal prefix code that takes up all places |
| HuffmanTree.LensBest | common/zlib.c:2250-2289 | And the lengths given out are one, unless a symbol lies deeper than max |
| HuffmanTree.Used | common/zlib.c:2390-2399 | The symbols with a frequency, each once, and the largest of them |
| HuffmanOptimal.MergeLower | common/zlib.c:2420-2445 | From any prefix code of some nodes there is one of the nodes left after the two lightest are merged that costs less by their weight |
| HuffmanOptimal.TwoLongest | common/zlib.c:2420-2445 | Every prefix code can be made no dearer with two nodes of the greatest length |
| HuffmanOptimal.Exchange | common/zlib.c:2420-2445 | A lighter node may take the longer of two lengths |
| HuffmanOptimal.FatherCost | common/zlib.c:2420-2445 | Two brothers cost their weight more than their father |
| HuffmanOptimal.FatherPlaces | common/zlib.c:2420-2445 | And take up the same places |
| DeflateCodes.ExtraBitsAre | common/zlib.c:1893-1897 | How many extra bits each length and distance code has |
| DeflateCodes.StaticInit | common/zlib.c:2080-2111 | Every length from 3 to 258 and every distance from 1 to 32768 gets a code whose base and extra bits, as the decoder has them, reach it |
| DeflateCodes.InitLengths | common/zlib.c:2080-2094 | The lengths |
| DeflateCodes.InitDistances | common/zlib.c:2096-2111 | The distances, the first 256 one by one |
| DeflateCodes.InitFar | common/zlib.c:2104-2110 | The others by their top bits |
| DeflateCodes.BitBuffer.constructor | common/zlib.c:2153-2154 | Nothing sent |
| DeflateCodes.BitBuffer.SendBits | common/zlib.c:2043-2056 | The bits go behind all bits sent before, in 16-bit arithmetic, whether or not the buffer overflows |
| DeflateCodes.BitBuffer.PutShort | common/zlib.c:2006-2009 | Two octets, least significant first |
| DeflateCodes.BitBuffer.Flush | common/zlib.c:2928-2940 | Nothing changes but that at most seven bits are held |
| DeflateCodes.BitBuffer.Windup | common/zlib.c:2945-2957 | Fewer than eight zeros fill the last octet |
| Lz77Spec.ExpandCopy | common/zlib.c:1665-1671 | A match tallied expands to what was matched, also when it overlaps itself |
| Lz77Spec.GroundedMore | common/zlib.c:1665-1671 | Every copy tallied reads from the text before it |
| Lz77Spec.OldestDrops | common/zlib.c:697-697 | The rolling hash depends on the last three octets only, for every hash size |
| Lz77Spec.ThirdEqual | common/zlib.c:1363-1370 | Equal hashes and two equal octets make the third octet equal, though it is never compared |
| Lz77Chains.InsertOk | common/zlib.c:708-711 | Inserting a string keeps every link pointing to the newest older string with the same hash, and every head to the newest |
| Lz77Chains.SlideOk | common/zlib.c:1470-1501 | So does sliding the window, for all that stays in the window |
| Lz77Chains.LongerOk | common/zlib.c:1446-1534 | And more input |
| Lz77Chains.HeadNewest | common/zlib.c:708-711 | No string in the window is newer than the head of its chain |
| Lz77Chains.NoneBetween | common/zlib.c:708-711 | No string with the hash lies between a string and the one its link leads to |
| Lz77Chains.Follow | common/zlib.c:1400-1401 | A link in reach leads to an older string with the same hash |
| Lz77Match.InsertString | common/zlib.c:708-711 | The string joins its chain, and the former head is the newest string before it with its hash |
| Lz77Match.LongestMatch | common/zlib.c:1269-1405 | The places looked at are the newest strings in reach with the same hash: all there are, as many as the budget of max_chain_length or a quarter of it allows, or up to one that matches for nice_length. What is found is the longest match among them, if longer than the previous one, and the nearest of these, within the distance limit and the input |
| Lz77Match.MatchLength | common/zlib.c:1369-1385 | The octets compared agree up to the length returned, and differ there unless it is 258 |
| Lz77Match.TryMatch | common/zlib.c:1358-1387 | The quick tests never pass over a place that matches further than the best so far |
| Lz77Match.HeadIsNewest | common/zlib.c:708-711 | The head of a chain is the newest string in the window with its hash |
| Lz77Match.WholeAgree | common/zlib.c:1358-1385 | With the hash the whole string agrees |
| Lz77Match.NextCandidate | common/zlib.c:1400-1401 | The chain goes on to candidates only, strictly backwards, and passes over no string with the hash |
| Lz77.Matcher.DeflateFast | common/zlib.c:1624-1710 | For every window size, chain limit and hash size, every distance at most w_size - 262 and every length from 3 to 258: all input is taken, all of it but the fewer than 262 octets still ahead is tallied, and the tokens expand to exactly that; with flush to all of it |
| Lz77.Matcher.DeflateSlow | common/zlib.c:1717-1831 | The same with lazy matching, one octet less if one waits |
| Lz77.Matcher.FillWindow | common/zlib.c:1446-1534 | Sliding and reading lose nothing, keep the matches under way valid, and leave at least 262 octets ahead or all there are |
| Lz77.Matcher.Slide | common/zlib.c:1470-1501 | Window, links, positions and the match under way move together |
| Lz77.Matcher.ReadBuf | common/zlib.c:1206-1226 | Input goes behind what is in the window |
| Lz77.Matcher.FastStep | common/zlib.c:1645-1705 | Exactly one token: the longest match the search sees and the nearest such, or a literal if it sees none of three octets or only Huffman coding is asked for; the string, and those of a short match, are inserted |
| Lz77.Matcher.FastMatch | common/zlib.c:1665-1698 | A match is tallied, and its strings inserted or the hash begun anew |
| Lz77.Matcher.SlowStep | common/zlib.c:1739-1821 | The match that waits is tallied unless a longer one worth it is seen now; otherwise the octet that waits, if one does, and the best match seen waits. Matches of three octets beyond 4096, and below six in filtered data, are not worth it. Every string passed is inserted |
| Lz77.Matcher.SlowMatch | common/zlib.c:1775-1798 | The previous match is tallied, and its strings inserted |
| Lz77.Matcher.SlowWait | common/zlib.c:1802-1821 | The octet waiting is tallied, and the next one waits |
| Lz77.Matcher.Judge | common/zlib.c:1751-1771 | A match stays exactly if it is worth it |
| Lz77.Matcher.LastLiteral | common/zlib.c:1824-1828 | The octet still waiting at the end |
| Lz77.Matcher.Search | common/zlib.c:1269-1405 | The match found for the string at hand, and what was looked at |
| Lz77.Matcher.InsertAndSearch | common/zlib.c:1645-1664 | The string is inserted and its chain searched; without a search nothing in reach has its hash, or none was asked for |
| Lz77.Matcher.constructor | common/zlib.c:1231-1254 | An empty stream meets both invariants |
| Lz77.Matcher.Feed | common/zlib.c:1206-1226 | More input only adds to what is to come |
| Lz77.FoundMoved | common/zlib.c:1470-1501 | A match stays one when the window slides under it and input arrives |
| Lz77.TallyMatch | common/zlib.c:1665-1671 | Tallying a match found moves the expansion on |
| Lz77.Matcher.InsertNext | common/zlib.c:708-711 | The string at a position joins its chain |
| Lz77.Matcher.InsertRun | common/zlib.c:1679-1685 | The strings of a match join their chains |
| Lz77.Matcher.InsertUpTo | common/zlib.c:1791-1795 | The strings of a match up to max_insert join their chains |
| Lz77.Matcher.TallyOne | common/zlib.c:1699-1705 | A literal moves the expansion on by its octet |
| Lz77.Matcher.SkipTo | common/zlib.c:1688-1691 | The hash begun anew is the right one for the next string |
| Lz77.Matcher.FastFill | common/zlib.c:1637-1643 | Filling keeps the invariant of deflate_fast |
| Lz77.Matcher.SlowFill | common/zlib.c:1731-1737 | Filling keeps the invariant of deflate_slow, with an octet or a match waiting |
| InflateCodes.FastIsSlow | common/zlib.c:4971-5109 | The fast loop and the states of inflate_codes, from the same place and also when the block goes on beyond the input or the room, leave the same window, write position, bits consumed and verdict |
| InflateCodes.InflateFast | common/zlib.c:4971-5109 | The loop decodes some number of symbols as specified, each with its bits in the input and room for all it may write, and gives back whole octets; unless the block ended it goes on until room or input is low |
| InflateCodes.SlowRun | common/zlib.c:4674-4831 | The state machine for any number of symbols |
| InflateCodes.SlowOne | common/zlib.c:4714-4815 | One symbol, state by state |
| InflateCodes.SlowState | common/zlib.c:4714-4815 | One state: what is left of the symbol stays the same |
| InflateCodes.FastOne | common/zlib.c:5000-5102 | One symbol of the fast loop |
| InflateCodes.FastDistance | common/zlib.c:5023-5072 | Distance and copy of the fast loop |
| InflateCodes.FastCopy | common/zlib.c:5037-5060 | Copying in one piece, or up to the end of the window and on from its start, equals copying octet by octet, also where source and target overlap |
| InflateCodes.SlowCopy | common/zlib.c:4791-4808 | The copy with a wrapping source |
| InflateCodes.FastWalk | common/zlib.c:5002-5077 | The walk through the tables on bits in the buffer |
| InflateCodes.SlowWalk | common/zlib.c:4714-4741 | The walk that asks for bits level by level ends at the same entry |
| InflateCodes.Ungrab | common/zlib.c:4964-4964 | Whole octets go back to the input, and the buffer keeps their bits above its count |
| InflateCodes.OrOctet | common/zlib.c:4963-4963 | Putting an octet over bits of it that are still there gives the same bits |
| InflateCodes.MetLength | common/zlib.c:4435-4461 | A length code is met only in blocks whose distance tables are sound; blocks without lengths need none |
| InflateCodes.Grab | common/zlib.c:4963-4963 | Bits enough, and no octet more than that takes |
| InflateCodes.BuiltSound | common/zlib.c:4191-4392 | The tables huft_build makes are of the kind both decoders need |
| InflateCodes.MoreWrites | common/zlib.c:5000-5103 | A symbol that is not the last writes at least one octet |
| InflateCodes.NextByte | common/zlib.c:4963-4963 | One octet above the bits in the buffer |
| InflateCodes.Dump | common/zlib.c:3595-3595 | Bits leave the buffer at its low end |
| InflateCodes.Look | common/zlib.c:4715-4719 | One lookup leads to the entry the walk goes through and consumes its bits |
| InflateCodes.Take | common/zlib.c:4753-4756 | Extra bits as a number |
| InflateCodes.CopyRun | common/zlib.c:5052-5060 | An upward copy without wrapping equals the octet by octet copy |
| DeflateStream.StreamInflates | common/zlib.c:2682-2790 | Whatever blocks the tokens of deflate_fast or deflate_slow are cut into, each with its own trees, and for every window no smaller than deflate's: inflate puts out exactly the input |
| DeflateStream.BlocksInflate | common/zlib.c:4674-4831 | So for every series of blocks whose copies stay within the text and the window, with any bits between the bodies |
| DeflateStream.DynamicOk | common/zlib.c:4416-4470 | The trees a block is sent with and the tables made of the lengths received, up to the last that is not zero, fit together |
| DeflateStream.SentAccepted | common/zlib.c:4416-4470 | inflate_trees_dynamic accepts the lengths of every tree build_tree makes |
| DeflateStream.TalliedSent | common/zlib.c:2809-2811 | Whatever deflate_fast and deflate_slow tally can be sent |
| DeflateInflate.BlockInflates | common/zlib.c:2843-2888 | A block sent with any two trees and read with tables that decode them: the text of its tokens comes out behind what came before, also where copies overlap or the window wraps, and decoding stops at its end |
| DeflateInflate.BlockPutOut | common/zlib.c:4674-4831 | The loop of inflate_codes, which stops at the end of a block or for lack of input, stops exactly there |
| DeflateInflate.BlockProper | common/zlib.c:4674-4831 | Such a block never leads the loop out of the alphabets or the window |
| DeflateInflate.TokenRead | common/zlib.c:2853-2879 | Each token is read back from its codes and extra bits, whatever surrounds them |
| DeflateInflate.TokenComesOut | common/zlib.c:4791-4815 | What a token stands for is what its item puts out |
| DeflateInflate.CopyComesOut | common/zlib.c:4791-4808 | A copy out of the circular window is the copy out of the text |
| DeflateTrees.SendBlock | common/zlib.c:2698-2776 | From the tally to the end of the body: complete trees in which every token has its codes, and exactly the bits of the body sent |
| DeflateTrees.BlockTrees | common/zlib.c:2698-2706 | The two trees of a block |
| DeflateTrees.Tally | common/zlib.c:2794-2815 | The frequencies are the numbers of times each symbol will be sent |
| DeflateTrees.InflateTrees | common/zlib.c:4416-4470 | Accepts exactly the lengths that make two proper trees, where the one for distances may be empty if there are no length codes; the tables then decode their codes, for both decoders |
| DeflateTrees.TrimmedInverts | common/zlib.c:2603-2609 | Lengths beyond the last that is not zero need not be sent |
| DeflateBlock.CompressBlock | common/zlib.c:2843-2888 | The loop sends exactly the bits of all tokens and of the end of the block |
| DeflateBlock.SendToken | common/zlib.c:2853-2879 | One literal, or a length and a distance with their extra bits |
| DeflateBlock.SendCode | common/zlib.c:1986-1986 | The code of a symbol, first bit first |
| DeflateBlock.LengthRestIs | common/zlib.c:2862-2868 | Code and extra bits of a length are what the decoder adds up to that length |
| DeflateBlock.DistRestIs | common/zlib.c:2869-2878 | Likewise for a distance |
| InflateBlock.WholeBlock | common/zlib.c:4674-4831 | inflate_codes for a whole block of any length: symbols are decoded as specified until the block ends, the data is bad or the input may not suffice, and the window is flushed whenever it is full |
| InflateBlock.ReadOne | common/zlib.c:4714-4790 | One literal, match, end or error from the bit buffer, consuming some bits |
| InflateBlock.ReadDistance | common/zlib.c:4761-4790 | A distance with its extra bits |
| InflateFlow.RunAgrees | common/zlib.c:4674-4831 | Where there is room to the end of the window this is the specification of the two decoders |
| InflateFlow.CopyHeld | common/zlib.c:4791-4808 | A copy of what was put out and is still in the window repeats it, octet by octet, and the window holds the end of the output again |
| InflateFlow.EmitHeld | common/zlib.c:4811-4815 | So does every octet |
| InflateWindow.OutputWindow.AddHistory | common/zlib.c:4030-4073 | From a caught-up state the window, write and read positions are exactly those after StoredBlock for the same data, of any length; a check function has summed the octets written over, not the data; otherwise nothing changes and the error tells why |
| InflateWindow.OutputWindow.CopyHistory | common/zlib.c:4049-4070 | The loop, piece by piece |
| InflateWindow.HistoryChecked | common/zlib.c:4056-4059 | For all data: the check comes out right if and only if the octets written over and the data agree, modulo 65521, in the sum of the octets and in the sum weighted by position |
| InflateWindow.HeldChecked | common/zlib.c:4056-4059 | In particular if the window holds the data already |
| InflateWindow.OneOctetChecked | common/zlib.c:4056-4059 | For one octet only then |
| InflateWindow.HistoryUnchecked | common/zlib.c:4056-4059 | In every window, at every position and for every length there is history that leaves a wrong check: what is there already, with any other last octet |
| InflateWindow.OneUnchecked | common/zlib.c:3156-3165 | For instance octet 1 in a window of 256 zeros, the smallest that is allocated |
| InflateWindow.CoveredPiece | common/zlib.c:4056-4059 | A piece summed is what lies one window length before in the data, or what was in the window |
| InflateWindow.PutAt | common/zlib.c:4049-4070 | What every place of the window holds |
| InflateWindow.OutputWindow.StoredBlock | common/zlib.c:3809-3825 | Decoding a stored block puts its data out in full and into the circular window octet by octet, and sums exactly it |
| InflateWindow.OutputWindow.CopyMatch | common/zlib.c:4791-4808 | A copy of any length, with the source wrapping and the window flushed in the middle, writes and puts out exactly the specified octets |
| InflateWindow.OutputWindow.OutByte | common/zlib.c:4811-4815 | One octet goes behind all that was written before, flushed or not |
| InflateWindow.OutputWindow.NeedOut | common/zlib.c:3601-3601 | Wrapping and flushing make room and lose nothing that is pending |
| InflateWindow.OutputWindow.Flush | common/zlib.c:4868-4936 | All that is pending goes out in order, over the end of the window too, and is summed |
| InflateWindow.PutConcat | common/zlib.c:4030-4073 | Putting data in pieces is putting it at once |
| InflateWindow.PutPiece | common/zlib.c:4052-4070 | A piece that fits is one copy |
| HuftWidths.BuiltMore | common/zlib.c:4329-4353 | Apart from blanks at the end of such tables, the tables laid out are those without them |
| HuftWidths.BuiltFill | common/zlib.c:4370-4373 | Codes are only ever entered in tables of the right width |
| HuftGaps.GapFree | common/zlib.c:4306-4353 | Without a gap no table is too wide |
| HuftGaps.GapDeaf | common/zlib.c:4714-4741 | With a gap the walk of all ones gets stuck |
| HuftGaps.OnesStuck | common/zlib.c:4714-4741 | Along ones the walk meets a table that is too wide, at an entry that is blank |
| HuftGaps.RealNeat | common/zlib.c:4306-4373 | With or without a gap no entry consumes more bits than index its table, and every link knows the size of the table it leads to |
| Accumulator.Push | modules/bsd-comp.c:531-533 | A code below the pending bits keeps them, within 32 bits |
| Accumulator.Pop | modules/bsd-comp.c:941-942 | The top bits are the next code, and the shift drops exactly them |

## Left out

- BsdSpec.Decompress: a code two above the largest is taken as the code does, also at the end of a packet; if another code in range follows it the outcome is Unspecified, because the code then enters a string that is its own prefix, or reads the length of one it has not entered. No compressor sends such codes.
- BsdCompress.BsdDb.Decompress: likewise; the statistics counters comp_count to uncomp_bytes are not kept.
- PppComp.Receive: the outcome Unspecified counts as a fatal error; the code goes on.
- BsdCompress.BsdDb.Compress: stops short of block allocation; all allocations succeed, and the statistics counters comp_count to uncomp_bytes are not kept.
- CompModule.CompState.Transmit: covers the compression step only, not the STREAMS queues, address and protocol field compression or VJ compression around it.
- CompModule.CompState.Receive: covers the decompression step only, once the full header has been put back; the outcome Unspecified counts as a fatal error.
- CcpLink.NeverWrong: is stated for BSD-Compress as the codec; the DEFLATE codec behind CCP is not modelled.
- CcpReset.CcpUnit.DataInput: what ccp_close goes on to send, MPPE, and the negotiation that opens CCP again are not modelled.
- CcpHandshake.Handshake: Reset-Acks are not lost, as in CcpLink; data packets and Reset-Requests may be. Only one direction of the link is modelled.
- Hdlc.Ahdlc.Receive: does not keep the RCV_B7 and parity flags and the statistics; allocation of the receive buffer succeeds.
- Hdlc.LoopReceiver.Chars: hands over the frames loop_frame gets; what loop_frame does with them is not modelled.
- Chap.Session.HandleResponse: takes the verdict of the verifier and of auth_number from the event; session management is off, and messages and names are not modelled.
- Chap.Session.Establish: covers CHAP in both directions and no authentication; PAP, EAP and refusals to authenticate are not modelled.
- VjCompressModule.VjCompress.CompressTcp: headers have at least five words for IP and five for TCP; a datagram whose fixed TCP header is cut off is left out, and IP checksums are in network order.
- VjCompressModule.VjCompress.UncompressTcp: a compressed packet for a slot that never held a header is rebuilt from blank fields, octets beyond the end of a packet read as zero, and the statistics are not kept.
- HuftDecode.Build: tables are values, an entry names its symbol instead of the base and extra bits looked up for it, and memory never runs out; there is at least one length and none is above 15, as the callers see to.
- HuffmanTree.BuildTree: says nothing on how close to the best a code comes in which a symbol lay deeper than max, or for frequencies that together exceed 16 bits, which a block of at most 32767 tokens never has; opt_len and static_len are not kept; the heap and the node list, which share an array from its two ends, are two sequences, with a proof that they would never meet.
- HuffmanHeap.PqDownHeap: works on a sequence instead of the array in place.
- HuffmanLengths.GenBitlen: keeps depths and lengths in separate sequences where the code overwrites the father of a node with its length.
- Lz77Match.LongestMatch: is called with the newest place of the chain, as the callers do; the comparison by 16-bit words (UNALIGNED_OK) is not modelled.
- Lz77.Matcher.DeflateFast: blocks are flushed between steps without effect on the matcher; a call of longest_match with fewer than three octets ahead, whose result is cut below three and never used, is not made; window, head and prev are values of fields.
- Lz77.Matcher.DeflateSlow: likewise; match_start may become negative where the code wraps it at 32 bits.
- InflateCodes.InflateFast: asks for input in one piece, and that no symbol whose bits and room are at hand has a distance beyond what the window holds or lies outside the alphabets (Valid).
- InflateCodes.SlowRun: runs with all input at hand and up to the end of the window; InflateBlock.WholeBlock wraps and flushes, also while copying. Leaving and resuming in the middle of a symbol is not modelled.
- InflateBlock.WholeBlock: has room for all output, and stops when fewer than 48 bits of input are left, where the code goes on as far as they reach.
- DeflateStream.StreamInflates: the heads of the blocks are bits that are skipped; that the trees sent in them are restored is CodeLengths.TreesRestored, on symbols. Behind the last block there are at least 15 bits.
- DeflateTrees.SendBlock: always sends dynamic trees, and nothing before the body; stored and fixed blocks and the choice between them are not modelled.
- DeflateBlock.CompressBlock: d_buf and l_buf are one sequence of tokens.
- InflateWindow.OutputWindow.StoredBlock: has its whole block as input and room for all output.
- InflateWindow.OutputWindow.AddHistory: the check function is Adler-32, the only one the code uses.
- CodeLengths.ReadLengths: reads symbols with their extra values, not bits through the code-length table.
- deflate_stored, the fixed trees, the heads of blocks as bits, zlib headers, preset dictionaries, inflateSync and the interface of `modules/deflate.c` are not modelled.
- LCP, IPCP and the shared state machine, option negotiation, MPPE, ECP, EAP, MS-CHAP, hashes, secrets files, scripts and the chat program are not modelled.
