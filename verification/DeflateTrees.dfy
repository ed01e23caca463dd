/** The trees of a block at both ends: from the frequencies of its tokens, and from the lengths received. */
module DeflateTrees {
  import opened Bits
  import opened BitOrder
  import opened HuffmanCodes
  import opened HuffmanTables
  import HuffmanTree
  import opened HuftDecode
  import opened InflateSpec
  import InflateCodes
  import opened Lz77Spec
  import opened DeflateCodes
  import opened DeflateBlock

  const L_CODES: nat := 286

  // Counting the symbols of a block.

  /** The symbol of the literal tree that is sent for a token. */
  function LitSymbol(m: Maps, t: Token): (n: nat)
    requires MapsOk(m) && (t.Copy? ==> LengthOk(t.len))
    ensures n < L_CODES
  {
    match t
    case Literal(b) => Value(b)
    case Copy(_, len) => LengthSymbol(m, len)
  }

  /** How often symbol n is sent for a token, and for all of them and the end of the block. */
  function LitUse(m: Maps, t: Token, n: nat): nat
    requires MapsOk(m) && (t.Copy? ==> LengthOk(t.len))
  {
    if LitSymbol(m, t) == n then 1 else 0
  }

  function DistUse(m: Maps, t: Token, n: nat): nat
    requires MapsOk(m) && (t.Copy? ==> DistOk(t.dist))
  {
    if t.Copy? && DistSymbol(m, t.dist) == n then 1 else 0
  }

  predicate TokenSent(t: Token) { t.Copy? ==> LengthOk(t.len) && DistOk(t.dist) }

  predicate TokensSent(tokens: seq<Token>) { forall i :: 0 <= i < |tokens| ==> TokenSent(tokens[i]) }

  function LitCount(m: Maps, tokens: seq<Token>, n: nat): nat
    requires MapsOk(m) && TokensSent(tokens)
  {
    if tokens == [] then if n == END_BLOCK then 1 else 0
    else LitCount(m, tokens[..|tokens| - 1], n) + LitUse(m, tokens[|tokens| - 1], n)
  }

  function DistCount(m: Maps, tokens: seq<Token>, n: nat): nat
    requires MapsOk(m) && TokensSent(tokens)
  {
    if tokens == [] then 0
    else DistCount(m, tokens[..|tokens| - 1], n) + DistUse(m, tokens[|tokens| - 1], n)
  }

  lemma {:induction false} Counted(m: Maps, tokens: seq<Token>, i: nat, n: nat)
    requires MapsOk(m) && TokensSent(tokens) && i < |tokens|
    ensures LitCount(m, tokens, n) >= LitUse(m, tokens[i], n)
    ensures DistCount(m, tokens, n) >= DistUse(m, tokens[i], n)
  {
    hide MapsOk, LitUse, DistUse;
    if i < |tokens| - 1 {
      Counted(m, tokens[..|tokens| - 1], i, n);
    }
  }

  lemma {:induction false} EndCounted(m: Maps, tokens: seq<Token>)
    requires MapsOk(m) && TokensSent(tokens)
    ensures LitCount(m, tokens, END_BLOCK) >= 1
  {
    hide MapsOk, LitUse;
    if tokens != [] {
      EndCounted(m, tokens[..|tokens| - 1]);
    }
  }

  /** init_block and _tr_tally for all tokens of a block. */
  method Tally(m: Maps, tokens: seq<Token>) returns (lfreq: seq<nat>, dfreq: seq<nat>)
    requires MapsOk(m) && TokensSent(tokens)
    ensures |lfreq| == 2 * L_CODES + 1 && |dfreq| == 2 * DISTANCES + 1
    ensures forall n :: 0 <= n < L_CODES ==> lfreq[n] == LitCount(m, tokens, n)
    ensures forall n :: 0 <= n < DISTANCES ==> dfreq[n] == DistCount(m, tokens, n)
  {
    hide MapsOk, LitCount, DistCount, LitSymbol, DistSymbol;
    lfreq := seq(2 * L_CODES + 1, n => if n == END_BLOCK then 1 else 0);
    dfreq := seq(2 * DISTANCES + 1, _ => 0);
    var i := 0;
    NoneCounted(m, tokens);
    while i < |tokens|
      invariant 0 <= i <= |tokens| && |lfreq| == 2 * L_CODES + 1 && |dfreq| == 2 * DISTANCES + 1
      invariant TokensSent(tokens[..i])
      invariant forall n :: 0 <= n < L_CODES ==> lfreq[n] == LitCount(m, tokens[..i], n)
      invariant forall n :: 0 <= n < DISTANCES ==> dfreq[n] == DistCount(m, tokens[..i], n)
    {
      var t := tokens[i];
      OneMore(m, tokens, i);
      var l := LitSymbol(m, t);
      lfreq := lfreq[l := lfreq[l] + 1];
      if t.Copy? {
        var d := DistSymbol(m, t.dist);
        dfreq := dfreq[d := dfreq[d] + 1];
      }
      i := i + 1;
    }
    assert tokens[..i] == tokens;
  }

  lemma NoneCounted(m: Maps, tokens: seq<Token>)
    requires MapsOk(m)
    ensures TokensSent(tokens[..0])
    ensures forall n :: LitCount(m, tokens[..0], n) == if n == END_BLOCK then 1 else 0
    ensures forall n :: DistCount(m, tokens[..0], n) == 0
  {
    hide MapsOk;
  }

  lemma OneMore(m: Maps, tokens: seq<Token>, i: nat)
    requires MapsOk(m) && TokensSent(tokens) && i < |tokens|
    ensures TokensSent(tokens[..i]) && TokensSent(tokens[..i + 1])
    ensures forall n :: LitCount(m, tokens[..i + 1], n) == LitCount(m, tokens[..i], n) + LitUse(m, tokens[i], n)
    ensures forall n :: DistCount(m, tokens[..i + 1], n) == DistCount(m, tokens[..i], n) + DistUse(m, tokens[i], n)
  {
    hide MapsOk, LitUse, DistUse;
    assert tokens[..i + 1][..i] == tokens[..i];
  }

  // The trees deflate sends a block with.

  /** Symbols in use have codes in both trees. */
  lemma UsedCodable(m: Maps, tokens: seq<Token>, ll: seq<nat>, ld: seq<nat>)
    requires MapsOk(m) && TokensSent(tokens) && |ll| == L_CODES && |ld| == DISTANCES
    requires forall n :: 0 <= n < L_CODES && LitCount(m, tokens, n) > 0 ==> ll[n] > 0
    requires forall n :: 0 <= n < DISTANCES && DistCount(m, tokens, n) > 0 ==> ld[n] > 0
    ensures AllCodable(m, ll, ld, tokens) && Has(ll, END_BLOCK)
  {
    hide MapsOk, LitCount, DistCount;
    EndCounted(m, tokens);
    forall i | 0 <= i < |tokens| ensures Codable(m, ll, ld, tokens[i]) {
      var t := tokens[i];
      assert TokenSent(t);
      Counted(m, tokens, i, LitSymbol(m, t));
      if t.Copy? {
        Counted(m, tokens, i, DistSymbol(m, t.dist));
      }
    }
  }

  /** The two build_tree calls of _tr_flush_block: complete trees in which every token has its codes. */
  method BlockTrees(m: Maps, tokens: seq<Token>)
    returns (lcodes: seq<nat>, ll: seq<nat>, dcodes: seq<nat>, ld: seq<nat>)
    requires MapsOk(m) && TokensSent(tokens)
    ensures Coding(m, ll, ld) && TreeIs(lcodes, ll) && TreeIs(dcodes, ld)
    ensures |ll| == L_CODES && |ld| == DISTANCES && Complete(ll) && Complete(ld)
    ensures AllCodable(m, ll, ld, tokens) && Has(ll, END_BLOCK)
  {
    hide MapsOk, LitCount, DistCount, Fits, Counts, Complete, Code, Num, Codable, Pow2;
    var lfreq, dfreq := Tally(m, tokens);
    EnoughLengths();
    var freq;
    ghost var depths;
    freq, ll, lcodes, depths := HuffmanTree.BuildTree(lfreq, L_CODES, HuffmanCodes.MAX_BITS);
    freq, ld, dcodes, depths := HuffmanTree.BuildTree(dfreq, DISTANCES, HuffmanCodes.MAX_BITS);
    UsedCodable(m, tokens, ll, ld);
  }

  lemma EnoughLengths()
    ensures L_CODES <= Pow2(15) && DISTANCES <= Pow2(15)
  {
    Pow2Fifteen();
    hide Pow2;
  }

  /** _tr_flush_block with dynamic trees, from the tally to the end of the body. */
  method SendBlock(buf: BitBuffer, m: Maps, tokens: seq<Token>) returns (ll: seq<nat>, ld: seq<nat>)
    requires buf.Valid() && MapsOk(m) && TokensSent(tokens)
    modifies buf
    ensures Coding(m, ll, ld) && AllCodable(m, ll, ld, tokens) && Has(ll, END_BLOCK)
    ensures |ll| == L_CODES && |ld| == DISTANCES && Complete(ll) && Complete(ld)
    ensures buf.Valid() && buf.Sent() == old(buf.Sent()) + BlockBits(m, ll, ld, tokens)
  {
    hide Coding, TreeIs, AllCodable, BlockBits, Complete, MapsOk, BitBuffer.Sent, BitBuffer.Valid;
    var lcodes, dcodes;
    lcodes, ll, dcodes, ld := BlockTrees(m, tokens);
    CodingIs(m, ll, ld);
    CompressBlock(buf, m, lcodes, ll, dcodes, ld, tokens);
  }

  // The lengths received are those up to the last that is not zero.

  predicate Trimmed(lens: seq<nat>, n: nat) { n <= |lens| && forall i :: n <= i < |lens| ==> lens[i] == 0 }

  lemma {:induction false} TrimmedCnt(lens: seq<nat>, n: nat, k: nat)
    requires Trimmed(lens, n) && k > 0
    ensures Cnt(lens[..n], k) == Cnt(lens, k)
  {
    if n == |lens| {
      assert lens[..n] == lens;
    } else {
      var init := lens[..|lens| - 1];
      TrimmedCnt(init, n, k);
      assert init[..n] == lens[..n];
    }
  }

  lemma TrimmedCounts(lens: seq<nat>, n: nat)
    requires Trimmed(lens, n) && TreeOk(lens)
    ensures Counts(lens[..n]) == Counts(lens) && TreeOk(lens[..n]) && (Complete(lens[..n]) <==> Complete(lens))
  {
    hide Cnt, Fits;
    forall k | 0 < k <= HuffmanCodes.MAX_BITS ensures Cnt(lens[..n], k) == Cnt(lens, k) {
      TrimmedCnt(lens, n, k);
    }
    assert Counts(lens[..n]) == Counts(lens);
  }

  lemma TrimmedCode(lens: seq<nat>, n: nat, i: nat)
    requires Trimmed(lens, n) && TreeOk(lens) && TreeOk(lens[..n]) && Has(lens, i)
    ensures Has(lens[..n], i) && Code(lens[..n], i) == Code(lens, i)
  {
    hide Fits, Counts, First, Code, CodeValue, Cnt, ToBits, Pow2;
    TrimmedCounts(lens, n);
    assert i < n && lens[..n][..i] == lens[..i];
    CodeIs(lens, i);
    CodeIs(lens[..n], i);
  }

  /** Tables for the lengths received decode the codes of all lengths. */
  lemma TrimmedInverts(lens: seq<nat>, n: nat, t: Tables, l: nat)
    requires Trimmed(lens, n) && TreeOk(lens) && TreeOk(lens[..n]) && Inverts(lens[..n], t, l)
    ensures Inverts(lens, t, l)
  {
    hide Walk, Code, Fits, Counts;
    forall i, rest: seq<bool> | 0 <= i < |lens| && lens[i] > 0 && |rest| >= HuffmanCodes.MAX_BITS
      ensures Walk(t, 0, l, Code(lens, i) + rest, 0) == Symbol(i, lens[i])
    {
      TrimmedCode(lens, n, i);
    }
    forall s: seq<bool> | |s| >= HuffmanCodes.MAX_BITS ensures DecodesOnly(lens, t, l, s, HuffmanCodes.MAX_BITS) {
      assert DecodesOnly(lens[..n], t, l, s, HuffmanCodes.MAX_BITS);
      var w := Walk(t, 0, l, s, 0);
      if w.Symbol? {
        TrimmedCode(lens, n, w.symbol);
      }
    }
  }

  // The trees inflate makes of them.

  /** The set is one huft_build reports no error for, beside the empty one. */
  ghost predicate Accepted(b: seq<nat>)
    requires LensOk(b)
  {
    Cnt(b, 0) < |b| && Fits(Counts(b)) && (Complete(b) || OneBit(b))
  }

  lemma LiteralTame(b: seq<nat>)
    requires LensOk(b)
    ensures Tame(b, 9)
  {
    ShallowTame(b, 9);
  }

  lemma DistanceTame(b: seq<nat>)
    requires LensOk(b) && |b| <= DISTANCES && Fits(Counts(b)) && (Complete(b) || OneBit(b))
    ensures Tame(b, 6)
  {
    assert Pow2(7) == 128;
    hide Pow2, Fits, Complete, Tame;
    if Complete(b) {
      CompleteTame(b, 6);
    } else {
      ShallowTame(b, 6);
    }
  }

  lemma NoLengths(b: seq<nat>, c: Codes)
    requires TreeOk(b) && Inverts(b, c.tl, c.bl) && |b| <= END_BLOCK + 1
    ensures !InflateCodes.HasLengths(c)
  {
    hide Walk, Code, Fits, Counts;
    forall s: seq<bool> ensures !InflateCodes.IsLength(c, s) {
      if |s| == InflateCodes.MAX_CODE {
        assert DecodesOnly(b, c.tl, c.bl, s, HuffmanCodes.MAX_BITS);
      }
    }
  }

  /**
   * inflate_trees_dynamic: accepts exactly the lengths that make two proper trees, where the one
   * for distances may be empty if there are no lengths; the tables then decode their codes.
   */
  method InflateTrees(bl: seq<nat>, bd: seq<nat>) returns (ok: bool, c: Codes)
    requires LensOk(bl) && LensOk(bd) && bl != [] && bd != [] && |bd| <= DISTANCES
    ensures ok <==> Accepted(bl) && (if Cnt(bd, 0) == |bd| then |bl| <= END_BLOCK + 1 else Accepted(bd))
    ensures ok ==> Inverts(bl, c.tl, c.bl) && InflateCodes.CodesOk(c)
    ensures ok && Cnt(bd, 0) < |bd| ==> Inverts(bd, c.td, c.bd)
  {
    hide Fits, Counts, Complete, OneBit, Tame, Inverts, Neat, Cnt, InflateCodes.Sound, InflateCodes.HasLengths;
    c := Codes([], 0, [], 0);
    var r, tl, l := Build(bl, 9);
    LiteralTame(bl);
    if r != Ok || l == 0 {
      return false, c;
    }
    InflateCodes.BuiltSound(bl, tl, l);
    var r2, td, d := Build(bd, 6);
    if r2 != Ok || (d == 0 && |bl| > END_BLOCK + 1) {
      return false, c;
    }
    ok, c := true, Codes(tl, l, td, d);
    if d == 0 {
      NoLengths(bl, c);
    } else {
      DistanceTame(bd);
      InflateCodes.BuiltSound(bd, td, d);
    }
  }
}
