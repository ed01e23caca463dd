/**
 The hash table of modules/bsd-comp.c on values.  Slots are cleared without
 being wiped: a slot is live when its codem1 is below max_ent, and when a code
 is given out again the slot that held it before is found through cptr and
 invalidated.
 */
module BsdTable {
  import opened Arith
  import opened Bits
  import opened Wrappers
  import opened BsdSpec
  import opened Probing

  const BADCODEM1 := 0x7fff

  /** Table size and hash shift for each dictionary size. */
  function Hsize(maxbits: nat): nat
  {
    if maxbits <= 12 then 5003 else if maxbits == 13 then 9001 else if maxbits == 14 then 18013 else 35023
  }

  function Hshift(maxbits: nat): nat
  {
    if maxbits <= 12 then 4 else if maxbits == 13 then 5 else if maxbits == 14 then 6 else 7
  }

  function Xor(a: nat, b: nat): nat
  {
    if a == 0 && b == 0 then 0 else 2 * Xor(a / 2, b / 2) + (a + b) % 2
  }

  lemma {:induction false} XorBound(a: nat, b: nat, n: nat)
    requires a < Pow2(n) && b < Pow2(n)
    ensures Xor(a, b) < Pow2(n)
  {
    if n > 0 && (a > 0 || b > 0) {
      XorBound(a / 2, b / 2, n - 1);
    }
  }

  /** BSD_HASH */
  function Hash(maxbits: nat, e: Entry): nat
  {
    Xor(e.suffix * Pow2(Hshift(maxbits)), e.prefix)
  }

  /** BSD_KEY */
  function Key(e: Entry): nat { e.suffix * 0x10000 + e.prefix }

  predicate Sized(maxbits: nat) { INIT_BITS <= maxbits <= MAX_BITS }

  lemma Geometry(maxbits: nat)
    requires Sized(maxbits)
    ensures Prime(Hsize(maxbits))
    ensures MaxCode(maxbits) <= BADCODEM1 && MaxCode(maxbits) < Pow2(Hshift(maxbits) + 8) < Hsize(maxbits)
  {
    Prime5003();
    Prime9001();
    Prime18013();
    Prime35023();
    Pow2Monotonic(maxbits, Hshift(maxbits) + 8);
    assert Pow2(12) == 4096 && Pow2(13) == 8192 && Pow2(14) == 16384 && Pow2(15) == 32768;
  }

  lemma CodesFit(maxbits: nat)
    requires Sized(maxbits)
    ensures MaxCode(maxbits) <= BADCODEM1
  {
    Geometry(maxbits);
  }

  lemma HashInRange(maxbits: nat, e: Entry)
    requires Sized(maxbits) && e.prefix <= MaxCode(maxbits)
    ensures Hash(maxbits, e) < Hsize(maxbits)
  {
    Geometry(maxbits);
    var s := Hshift(maxbits);
    assert Pow2(8) == 256;
    Pow2Add(8, s);
    MulLess(e.suffix, 256, Pow2(s));
    XorBound(e.suffix * Pow2(s), e.prefix, s + 8);
  }

  /** The displacement between probes. */
  function Disp(maxbits: nat, e: Entry): nat
  {
    var h := Hash(maxbits, e);
    if h == 0 then 1 else h
  }

  /** The n-th slot probed for a pair. */
  function SlotOf(maxbits: nat, e: Entry, n: nat): (slot: nat)
    ensures slot < Hsize(maxbits)
  {
    Probe(Hash(maxbits, e), Disp(maxbits, e), n, Hsize(maxbits))
  }

  lemma FirstSlot(maxbits: nat, e: Entry)
    requires Sized(maxbits) && e.prefix <= MaxCode(maxbits)
    ensures SlotOf(maxbits, e, 0) == Hash(maxbits, e)
  {
    HashInRange(maxbits, e);
    DivMod(Hash(maxbits, e), 0, Hash(maxbits, e), Hsize(maxbits));
  }

  lemma NextSlot(maxbits: nat, e: Entry, n: nat)
    requires Sized(maxbits) && e.prefix <= MaxCode(maxbits)
    ensures var s := SlotOf(maxbits, e, n) + Disp(maxbits, e);
            SlotOf(maxbits, e, n + 1) == if s >= Hsize(maxbits) then s - Hsize(maxbits) else s
  {
    HashInRange(maxbits, e);
    ProbeNext(Hash(maxbits, e), Disp(maxbits, e), n, Hsize(maxbits));
  }

  /** The three fields of each slot. */
  datatype Table = Table(fcode: seq<nat>, codem1: seq<nat>, cptr: seq<nat>)

  ghost predicate Shape(maxbits: nat, t: Table)
  {
    && Sized(maxbits)
    && |t.fcode| == |t.codem1| == |t.cptr| == Hsize(maxbits)
    && MaxCode(maxbits) < Hsize(maxbits)
    && (forall i | 0 <= i < |t.cptr| :: t.cptr[i] < Hsize(maxbits))
    && (forall i | 0 <= i < |t.codem1| :: t.codem1[i] == BADCODEM1 || FIRST - 1 <= t.codem1[i] < MaxCode(maxbits))
  }

  /** Only the slot cptr points to can hold a code, now or from before the last clear. */
  ghost predicate Unique(maxbits: nat, t: Table)
    requires Shape(maxbits, t)
  {
    forall i | 0 <= i < |t.codem1| && t.codem1[i] != BADCODEM1 :: t.cptr[t.codem1[i] + 1] == i
  }

  /** Code k of the dictionary is in the slot cptr points to. */
  ghost predicate Stored(maxbits: nat, t: Table, d: Dict, k: nat)
    requires Shape(maxbits, t) && k < |d| && MaxEnt(d) <= MaxCode(maxbits)
  {
    var slot := t.cptr[FIRST + k];
    t.codem1[slot] == FIRST + k - 1 && t.fcode[slot] == Key(d[k])
  }

  /** It was found there after depth[k] probes, all of slots with earlier codes. */
  ghost predicate Reached(maxbits: nat, t: Table, d: Dict, depth: seq<nat>, k: nat)
    requires Shape(maxbits, t) && k < |d| && MaxEnt(d) <= MaxCode(maxbits) && |depth| == |d|
  {
    && depth[k] < Hsize(maxbits)
    && SlotOf(maxbits, d[k], depth[k]) == t.cptr[FIRST + k]
    && forall m | 0 <= m < depth[k] :: t.codem1[SlotOf(maxbits, d[k], m)] < FIRST + k - 1
  }

  ghost predicate TableOk(maxbits: nat, t: Table, d: Dict, depth: seq<nat>)
  {
    && Shape(maxbits, t)
    && DictOk(maxbits, d)
    && |depth| == |d|
    && Unique(maxbits, t)
    && (forall k | 0 <= k < |d| :: Stored(maxbits, t, d, k))
    && (forall k | 0 <= k < |d| :: Reached(maxbits, t, d, depth, k))
  }

  ghost predicate Live(t: Table, d: Dict, slot: nat)
    requires slot < |t.codem1|
  {
    t.codem1[slot] < MaxEnt(d)
  }

  /** bsd_init, and later every clear: the table is a table of the empty dictionary. */
  lemma EmptyTableOk(maxbits: nat, t: Table)
    requires Shape(maxbits, t) && Unique(maxbits, t)
    ensures TableOk(maxbits, t, [], [])
  {
    assert Pow2(9) == 512;
    Pow2Monotonic(9, maxbits);
  }

  lemma KeyInjective(a: Entry, b: Entry)
    requires Key(a) == Key(b) && a.prefix < 0x10000 && b.prefix < 0x10000
    ensures a == b
  {
  }

  /** The probes so far hit live slots only, so there is another slot to probe. */
  lemma NotAllLive(maxbits: nat, t: Table, d: Dict, depth: seq<nat>, e: Entry, n: nat)
    requires TableOk(maxbits, t, d, depth)
    requires e.prefix <= MaxCode(maxbits)
    requires n <= Hsize(maxbits)
    requires forall m | 0 <= m < n :: Live(t, d, SlotOf(maxbits, e, m))
    ensures n < Hsize(maxbits)
  {
    Geometry(maxbits);
    HashInRange(maxbits, e);
    var size := Hsize(maxbits);
    var q := seq(n, m requires 0 <= m < n => t.codem1[SlotOf(maxbits, e, m)]);
    forall i, j | 0 <= i < j < n
      ensures q[i] != q[j]
    {
      ProbesDistinct(Hash(maxbits, e), Disp(maxbits, e), i, j, size);
      assert Live(t, d, SlotOf(maxbits, e, i)) && Live(t, d, SlotOf(maxbits, e, j));
    }
    forall i | 0 <= i < n
      ensures q[i] < MaxEnt(d)
    {
      assert Live(t, d, SlotOf(maxbits, e, i));
    }
    Pigeonhole(q, MaxEnt(d));
  }

  /** Where entry j of the dictionary is met when its pair is probed for. */
  lemma MetAt(maxbits: nat, t: Table, d: Dict, depth: seq<nat>, e: Entry, j: nat)
    requires TableOk(maxbits, t, d, depth) && j < |d| && d[j] == e
    ensures var slot := SlotOf(maxbits, e, depth[j]);
            t.fcode[slot] == Key(e) && t.codem1[slot] == FIRST + j - 1
    ensures forall m | 0 <= m < depth[j] :: t.codem1[SlotOf(maxbits, e, m)] < FIRST + j - 1
  {
    assert Stored(maxbits, t, d, j) && Reached(maxbits, t, d, depth, j);
  }

  /** A live slot with the key of the pair, reached over slots without that key, holds its code. */
  lemma HitIsFind(maxbits: nat, t: Table, d: Dict, depth: seq<nat>, e: Entry, n: nat)
    requires TableOk(maxbits, t, d, depth)
    requires e.prefix <= MaxCode(maxbits)
    requires var slot := SlotOf(maxbits, e, n); Live(t, d, slot) && t.fcode[slot] == Key(e)
    requires forall m | 0 <= m < n :: t.fcode[SlotOf(maxbits, e, m)] != Key(e)
    ensures Find(d, e.prefix, e.suffix) == Some(t.codem1[SlotOf(maxbits, e, n)] + 1)
  {
    var k := t.codem1[SlotOf(maxbits, e, n)] + 1 - FIRST;
    HolderIs(maxbits, t, d, depth, e, SlotOf(maxbits, e, n));
    var j := Find(d, e.prefix, e.suffix).value - FIRST;
    // of two codes for the pair the earlier is met first
    MetAt(maxbits, t, d, depth, e, j);
  }

  lemma HolderIs(maxbits: nat, t: Table, d: Dict, depth: seq<nat>, e: Entry, slot: nat)
    requires TableOk(maxbits, t, d, depth)
    requires e.prefix <= MaxCode(maxbits)
    requires slot < Hsize(maxbits) && Live(t, d, slot) && t.fcode[slot] == Key(e)
    ensures var k := t.codem1[slot] + 1 - FIRST; 0 <= k < |d| && d[k] == e
  {
    CodesFit(maxbits);
    var k := t.codem1[slot] + 1 - FIRST;
    assert t.codem1[slot] != BADCODEM1;
    assert t.cptr[FIRST + k] == slot;
    assert Stored(maxbits, t, d, k);
    KeyInjective(d[k], e);
  }

  /** A dead slot reached over slots without the key: the pair has no code. */
  lemma MissIsNone(maxbits: nat, t: Table, d: Dict, depth: seq<nat>, e: Entry, n: nat)
    requires TableOk(maxbits, t, d, depth)
    requires !Live(t, d, SlotOf(maxbits, e, n))
    requires forall m | 0 <= m < n :: t.fcode[SlotOf(maxbits, e, m)] != Key(e)
    ensures Find(d, e.prefix, e.suffix) == None
  {
    var found := Find(d, e.prefix, e.suffix);
    if found.Some? {
      MetAt(maxbits, t, d, depth, e, found.value - FIRST);
    }
  }

  /** Giving out code max_ent + 1 for pair e at a dead slot. */
  function TakeOver(maxbits: nat, t: Table, maxEnt: nat, slot: nat, e: Entry): (r: Table)
    requires |t.fcode| == |t.codem1| == |t.cptr|
    requires maxEnt + 1 < |t.cptr| && slot < |t.codem1| && t.cptr[maxEnt + 1] < |t.codem1|
  {
    var prior := t.cptr[maxEnt + 1];
    var codem1 := if t.codem1[prior] == maxEnt then t.codem1[prior := BADCODEM1] else t.codem1;
    Table(t.fcode[slot := Key(e)], codem1[slot := maxEnt], t.cptr[maxEnt + 1 := slot])
  }

  lemma TakeOverShape(maxbits: nat, t: Table, d: Dict, depth: seq<nat>, e: Entry, slot: nat)
    requires TableOk(maxbits, t, d, depth)
    requires MaxEnt(d) < MaxCode(maxbits) && slot < Hsize(maxbits)
    ensures Shape(maxbits, TakeOver(maxbits, t, MaxEnt(d), slot, e))
    ensures Unique(maxbits, TakeOver(maxbits, t, MaxEnt(d), slot, e))
  {
    var t' := TakeOver(maxbits, t, MaxEnt(d), slot, e);
    forall i | 0 <= i < |t'.codem1| && t'.codem1[i] != BADCODEM1
      ensures t'.cptr[t'.codem1[i] + 1] == i
    {
      if i != slot {
        assert t'.codem1[i] == t.codem1[i];
        assert t.cptr[t.codem1[i] + 1] == i;
      }
    }
  }

  lemma TakeOverOk(maxbits: nat, t: Table, d: Dict, depth: seq<nat>, e: Entry, n: nat)
    requires TableOk(maxbits, t, d, depth)
    requires IsCode(d, e.prefix) && MaxEnt(d) < MaxCode(maxbits) && n < Hsize(maxbits)
    requires !Live(t, d, SlotOf(maxbits, e, n))
    requires forall m | 0 <= m < n :: Live(t, d, SlotOf(maxbits, e, m))
    ensures TableOk(maxbits, TakeOver(maxbits, t, MaxEnt(d), SlotOf(maxbits, e, n), e), d + [e], depth + [n])
  {
    var slot := SlotOf(maxbits, e, n);
    var t' := TakeOver(maxbits, t, MaxEnt(d), slot, e);
    var d', depth' := d + [e], depth + [n];
    TakeOverShape(maxbits, t, d, depth, e, slot);
    forall i | 0 <= i < |t.codem1| && Live(t, d, i)
      ensures t'.codem1[i] == t.codem1[i] && t'.fcode[i] == t.fcode[i]
    {
    }
    forall k | 0 <= k < |d'|
      ensures Stored(maxbits, t', d', k) && Reached(maxbits, t', d', depth', k)
    {
      if k < |d| {
        assert Stored(maxbits, t, d, k) && Reached(maxbits, t, d, depth, k);
        assert Live(t, d, t.cptr[FIRST + k]);
        forall m | 0 <= m < depth'[k]
          ensures t'.codem1[SlotOf(maxbits, d'[k], m)] < FIRST + k - 1
        {
          assert Live(t, d, SlotOf(maxbits, d[k], m));
        }
      } else {
        forall m | 0 <= m < n
          ensures t'.codem1[SlotOf(maxbits, e, m)] < FIRST + k - 1
        {
          assert Live(t, d, SlotOf(maxbits, e, m));
        }
      }
    }
  }
}
