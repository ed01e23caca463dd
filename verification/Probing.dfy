/**
 The probe sequence of the BSD-Compress hash table: start at h and step by a
 fixed displacement modulo a prime table size.  It visits every slot, so a
 search in a table that is not full comes to an end.
 */
module Probing {
  import opened Arith

  ghost predicate Prime(p: nat)
  {
    p >= 2 && forall d | 1 < d < p :: p % d != 0
  }

  function Probe(h: nat, disp: nat, n: nat, size: nat): (slot: nat)
    requires size > 0
    ensures slot < size
  {
    (h + n * disp) % size
  }

  /** One step of the probe loop: add the displacement and wrap around. */
  lemma ProbeNext(h: nat, disp: nat, n: nat, size: nat)
    requires disp < size
    ensures var s := Probe(h, disp, n, size) + disp;
            Probe(h, disp, n + 1, size) == if s >= size then s - size else s
  {
    var a := h + n * disp;
    assert h + (n + 1) * disp == a + disp;
    ModStep(a, disp, size);
  }

  lemma ModStep(a: nat, disp: nat, size: nat)
    requires disp < size
    ensures (a + disp) % size == if a % size + disp >= size then a % size + disp - size else a % size + disp
  {
    var q, r := a / size, a % size;
    assert a + disp == q * size + (r + disp);
    if r + disp >= size {
      assert a + disp == (q + 1) * size + (r + disp - size);
      DivMod(a + disp, q + 1, r + disp - size, size);
    } else {
      DivMod(a + disp, q, r + disp, size);
    }
  }

  /** If p divides a * b, it divides (p % a) * b too. */
  lemma MultipleDescends(p: nat, a: nat, b: nat)
    requires 0 < a && 0 < p && (a * b) % p == 0
    ensures (p % a) * b % p == 0
  {
    var q, r, k := p / a, p % a, (a * b) / p;
    calc {
      r * b;
      { assert r == p - q * a; }
      (p - q * a) * b;
      { Distribute(p, q * a, b); Associate(q, a, b); }
      p * b - q * (a * b);
      { assert a * b == k * p; }
      p * b - q * (k * p);
      { Regroup(p, b, q, k); }
      (b - q * k) * p;
    }
    Multiple(r * b, b - q * k, p);
  }

  /** Euclid's lemma in the form needed here, by descent on a. */
  lemma {:induction false} NoZeroProduct(p: nat, a: nat, b: nat)
    requires Prime(p) && 0 < a < p && 0 < b < p
    ensures (a * b) % p != 0
    decreases a
  {
    if a > 1 {
      NoZeroProduct(p, p % a, b);
      if (a * b) % p == 0 {
        MultipleDescends(p, a, b);
      }
    }
  }

  lemma Regroup(p: int, b: int, q: int, k: int)
    ensures p * b - q * (k * p) == (b - q * k) * p
  {
  }

  /** The first `size` probes are pairwise different. */
  lemma ProbesDistinct(h: nat, disp: nat, i: nat, j: nat, size: nat)
    requires Prime(size) && 0 < disp < size && i < j < size
    ensures Probe(h, disp, i, size) != Probe(h, disp, j, size)
  {
    if Probe(h, disp, i, size) == Probe(h, disp, j, size) {
      var x, y := h + i * disp, h + j * disp;
      assert y - x == (j - i) * disp by { Difference(h, i, j, disp); }
      assert y - x == (y / size - x / size) * size by { Difference(x % size, x / size, y / size, size); }
      Multiple(y - x, y / size - x / size, size);
      NoZeroProduct(size, j - i, disp);
      assert false;
    }
  }

  lemma Difference(h: int, i: int, j: int, d: int)
    ensures (h + j * d) - (h + i * d) == (j - i) * d
  {
  }

  /** Distinct numbers below m: there are at most m of them. */
  lemma {:induction false} Pigeonhole(q: seq<nat>, m: nat)
    requires forall i | 0 <= i < |q| :: q[i] < m
    requires forall i, j | 0 <= i < j < |q| :: q[i] != q[j]
    ensures |q| <= m
    decreases m
  {
    if |q| > 0 {
      assert q[0] < m;
      if m - 1 in q {
        var k :| 0 <= k < |q| && q[k] == m - 1;
        var rest := q[..k] + q[k + 1..];
        assert forall i | 0 <= i < |rest| :: rest[i] == q[if i < k then i else i + 1];
        Pigeonhole(rest, m - 1);
      } else {
        Pigeonhole(q, m - 1);
      }
    }
  }

  // ----- The table sizes are prime -----

  /** The numbers from 5 to 187 that are not multiples of 2 or 3. */
  predicate Candidate(d: nat)
  {
    d in {
      5, 7, 11, 13, 17, 19, 23, 25, 29, 31, 35, 37, 41, 43, 47, 49,
      53, 55, 59, 61, 65, 67, 71, 73, 77, 79, 83, 85, 89, 91, 95, 97,
      101, 103, 107, 109, 113, 115, 119, 121, 125, 127, 131, 133, 137, 139, 143, 145,
      149, 151, 155, 157, 161, 163, 167, 169, 173, 175, 179, 181, 185, 187
    }
  }

  lemma Wheel(d: nat)
    requires 5 <= d < 188 && d % 2 != 0 && d % 3 != 0
    ensures Candidate(d)
  {
  }

  lemma DivisorOf(p: nat, d: nat, m: nat)
    requires 0 < d && 0 < m && p % d == 0 && d % m == 0
    ensures p % m == 0
  {
    assert p == (p / d) * ((d / m) * m);
    Associate(p / d, d / m, m);
    Multiple(p, (p / d) * (d / m), m);
  }

  lemma NoSmallDivisor(p: nat, d: nat)
    requires p % 2 != 0 && p % 3 != 0 && forall c | Candidate(c) :: p % c != 0
    requires 2 <= d < 188
    ensures p % d != 0
  {
    if p % d == 0 {
      if d % 2 == 0 {
        DivisorOf(p, d, 2);
      } else if d % 3 == 0 {
        DivisorOf(p, d, 3);
      } else {
        Wheel(d);
      }
    }
  }

  /** Trial division up to a bound whose square exceeds p suffices. */
  lemma TrialDivision(p: nat)
    requires 2 <= p < 188 * 188
    requires p % 2 != 0 && p % 3 != 0 && forall c | Candidate(c) :: p % c != 0
    ensures Prime(p)
  {
    forall d | 1 < d < p
      ensures p % d != 0
    {
      if p % d == 0 {
        var k := p / d;
        assert p == k * d;
        if d < 188 {
          NoSmallDivisor(p, d);
        } else {
          if k >= 188 {
            SquareBound(k, d, 188);
          }
          Multiple(p, d, k);
          NoSmallDivisor(p, k);
        }
      }
    }
  }

  lemma SquareBound(k: nat, d: nat, b: nat)
    requires k >= b && d >= b
    ensures k * d >= b * b
  {
    assert k * d >= b * d;
    assert b * d >= b * b;
  }

  lemma Prime5003() ensures Prime(5003) { TrialDivision(5003); }

  lemma Prime9001() ensures Prime(9001) { TrialDivision(9001); }

  lemma Prime18013() ensures Prime(18013) { TrialDivision(18013); }

  lemma Prime35023() ensures Prime(35023) { TrialDivision(35023); }
}
