/** Literals and copies, what they expand to, and the hash chains that find the copies. */
module Lz77Spec {

  const MIN_MATCH: nat := 3
  const MAX_MATCH: nat := 258
  const MIN_LOOKAHEAD: nat := MAX_MATCH + MIN_MATCH + 1

  datatype Token = Literal(b: bv8) | Copy(dist: nat, len: nat)

  // Expansion.

  /** len more octets, each the one dist before it. */
  function CopyOut(text: seq<bv8>, dist: nat, len: nat): (r: seq<bv8>)
    requires 1 <= dist <= |text|
    decreases len
  {
    if len == 0 then text else CopyOut(text + [text[|text| - dist]], dist, len - 1)
  }

  /** The text a sequence of tokens stands for; copies from before its start stand for nothing. */
  function Expand(tokens: seq<Token>): (text: seq<bv8>) {
    if tokens == [] then []
    else
      var front := Expand(tokens[..|tokens| - 1]);
      match tokens[|tokens| - 1]
      case Literal(b) => front + [b]
      case Copy(dist, len) => if 1 <= dist <= |front| then CopyOut(front, dist, len) else front
  }

  predicate TokenOk(t: Token, maxDist: nat) {
    t.Copy? ==> MIN_MATCH <= t.len <= MAX_MATCH && 1 <= t.dist <= maxDist
  }

  /** Every copy reads from the text before it. */
  predicate Grounded(tokens: seq<Token>) {
    forall i :: 0 <= i < |tokens| && tokens[i].Copy? ==> GroundedAt(tokens, i)
  }

  predicate GroundedAt(tokens: seq<Token>, i: nat)
    requires i < |tokens| && tokens[i].Copy?
  {
    1 <= tokens[i].dist <= |Expand(tokens[..i])|
  }

  lemma GroundedMore(tokens: seq<Token>, t: Token)
    requires Grounded(tokens) && (t.Copy? ==> 1 <= t.dist <= |Expand(tokens)|)
    ensures Grounded(tokens + [t])
  {
    hide Expand;
    var all := tokens + [t];
    forall i | 0 <= i < |all| && all[i].Copy? ensures GroundedAt(all, i) {
      assert all[..i] == tokens[..i];
      if i < |tokens| {
        assert GroundedAt(tokens, i);
      } else {
        assert tokens[..i] == tokens;
      }
    }
  }

  /** From p on, len octets are those d before; the two stretches may overlap. */
  predicate Matches(stream: seq<bv8>, d: nat, p: nat, len: nat) {
    && 1 <= d <= p && p + len <= |stream|
    && forall j :: p <= j < p + len ==> stream[j] == stream[j - d]
  }

  lemma {:induction false} CopyIs(stream: seq<bv8>, d: nat, p: nat, len: nat)
    requires Matches(stream, d, p, len)
    ensures CopyOut(stream[..p], d, len) == stream[..p + len]
    decreases len
  {
    if len > 0 {
      assert stream[..p + 1] == stream[..p] + [stream[p]];
      CopyIs(stream, d, p + 1, len - 1);
    }
  }

  /** Tallying a match moves the expansion on over what was matched. */
  lemma ExpandCopy(tokens: seq<Token>, stream: seq<bv8>, d: nat, p: nat, len: nat)
    requires Matches(stream, d, p, len) && Expand(tokens) == stream[..p]
    ensures Expand(tokens + [Copy(d, len)]) == stream[..p + len]
  {
    assert (tokens + [Copy(d, len)])[..|tokens|] == tokens;
    CopyIs(stream, d, p, len);
  }

  lemma ExpandLiteral(tokens: seq<Token>, b: bv8)
    ensures Expand(tokens + [Literal(b)]) == Expand(tokens) + [b]
  {
    assert (tokens + [Literal(b)])[..|tokens|] == tokens;
  }

  // The rolling hash of three octets.

  /** The shift that lets three octets take part, and the mask of hash_bits ones; a masked hash fits sixteen bits. */
  datatype Hashing = Hashing(shift: nat, mask: bv16)

  predicate HashingOk(h: Hashing) {
    h in {Hashing(3, 0xff), Hashing(3, 0x1ff), Hashing(4, 0x3ff), Hashing(4, 0x7ff), Hashing(4, 0xfff),
          Hashing(5, 0x1fff), Hashing(5, 0x3fff), Hashing(5, 0x7fff), Hashing(6, 0xffff)}
  }

  function Update(h: Hashing, v: bv16, c: bv8): bv16
    requires h.shift < 8
  {
    ((v << h.shift) ^ (c as bv16)) & h.mask
  }

  /** The hash of a string of three octets, from nothing. */
  function Hash3(h: Hashing, a: bv8, b: bv8, c: bv8): bv16
    requires h.shift < 8
  {
    Update(h, Update(h, a as bv16, b), c)
  }

  /** The octet before the last three no longer takes part. */
  lemma OldestDrops(h: Hashing, v: bv16, a: bv8, b: bv8, c: bv8)
    requires HashingOk(h)
    ensures Update(h, Update(h, Update(h, v, a), b), c) == Hash3(h, a, b, c)
  {
    if h.shift == 3 {
      Drops3(v, a, b, c);
    } else if h.shift == 4 {
      Drops4(v, a, b, c);
    } else if h.shift == 5 {
      Drops5(v, a, b, c);
    } else {
      Drops6(v, a, b, c);
    }
  }

  lemma Drops3(v: bv16, a: bv8, b: bv8, c: bv8)
    ensures forall m: bv16 | m in {0xff, 0x1ff} ::
      var h := Hashing(3, m); Update(h, Update(h, Update(h, v, a), b), c) == Hash3(h, a, b, c)
  {
  }

  lemma Drops4(v: bv16, a: bv8, b: bv8, c: bv8)
    ensures forall m: bv16 | m in {0x3ff, 0x7ff, 0xfff} ::
      var h := Hashing(4, m); Update(h, Update(h, Update(h, v, a), b), c) == Hash3(h, a, b, c)
  {
  }

  lemma Drops5(v: bv16, a: bv8, b: bv8, c: bv8)
    ensures forall m: bv16 | m in {0x1fff, 0x3fff, 0x7fff} ::
      var h := Hashing(5, m); Update(h, Update(h, Update(h, v, a), b), c) == Hash3(h, a, b, c)
  {
  }

  lemma Drops6(v: bv16, a: bv8, b: bv8, c: bv8)
    ensures forall m: bv16 | m in {0xffff} ::
      var h := Hashing(6, m); Update(h, Update(h, Update(h, v, a), b), c) == Hash3(h, a, b, c)
  {
  }

  /** With equal hashes and two equal octets the third octets are equal. */
  lemma ThirdEqual(h: Hashing, a: bv8, b: bv8, c: bv8, d: bv8)
    requires HashingOk(h) && Hash3(h, a, b, c) == Hash3(h, a, b, d)
    ensures c == d
  {
  }
}
