/**
 * Bit strings in the order deflate sends them. A Huffman code goes out most significant
 * bit first (Val), every other number least significant bit first (Num).
 */
module BitOrder {
  import opened Arith
  import opened Bits

  function Bit(b: bool): (n: nat)
    ensures n < 2
  {
    if b then 1 else 0
  }

  /** The number a bit string denotes, its first bit least significant. */
  function Num(s: seq<bool>): (n: nat) {
    if s == [] then 0 else Bit(s[0]) + 2 * Num(s[1..])
  }

  function Zeros(n: nat): (s: seq<bool>)
    ensures |s| == n && forall i :: 0 <= i < n ==> !s[i]
  {
    seq(n, _ => false)
  }

  lemma {:induction false} NumBound(s: seq<bool>)
    ensures Num(s) < Pow2(|s|)
  {
    if s != [] {
      NumBound(s[1..]);
    }
  }

  lemma {:induction false} NumConcat(a: seq<bool>, b: seq<bool>)
    ensures Num(a + b) == Num(a) + Pow2(|a|) * Num(b)
  {
    if a == [] {
      assert a + b == b;
    } else {
      NumCons(a);
      NumCons(a + b);
      assert (a + b)[1..] == a[1..] + b;
      NumConcat(a[1..], b);
      hide Num, Pow2;
      DoubleStep(|a|, Num(b));
    }
  }

  lemma NumCons(s: seq<bool>)
    requires s != []
    ensures Num(s) == Bit(s[0]) + 2 * Num(s[1..])
  {
  }

  lemma DoubleStep(n: nat, x: nat)
    requires n > 0
    ensures 2 * (Pow2(n - 1) * x) == Pow2(n) * x
  {
    Associate(2, Pow2(n - 1), x);
  }

  lemma Divide(x: nat, q: nat, r: nat, m: nat)
    requires x == r + m * q && r < m
    ensures x / m == q && x % m == r
  {
    assert m * q == q * m;
    DivMod(x, q, r, m);
  }

  /** The low m bits and the others. */
  lemma NumSplit(s: seq<bool>, m: nat)
    requires m <= |s|
    ensures Num(s) % Pow2(m) == Num(s[..m])
    ensures Num(s) / Pow2(m) == Num(s[m..])
  {
    hide Num, Pow2;
    assert s == s[..m] + s[m..];
    NumConcat(s[..m], s[m..]);
    NumBound(s[..m]);
    Divide(Num(s), Num(s[m..]), Num(s[..m]), Pow2(m));
  }

  lemma {:induction false} NumInjective(a: seq<bool>, b: seq<bool>)
    requires |a| == |b| && Num(a) == Num(b)
    ensures a == b
  {
    if a != [] {
      NumInjective(a[1..], b[1..]);
      assert a == [a[0]] + a[1..] && b == [b[0]] + b[1..];
    }
  }

  lemma {:induction false} NumZeros(n: nat)
    ensures Num(Zeros(n)) == 0
  {
    if n > 0 {
      assert Zeros(n)[1..] == Zeros(n - 1);
      NumZeros(n - 1);
    }
  }

  /** Zeros at the end do not change the number. */
  lemma NumPadded(s: seq<bool>, n: nat)
    ensures Num(s + Zeros(n)) == Num(s)
  {
    NumConcat(s, Zeros(n));
    NumZeros(n);
  }

  /** The bit string of length w that denotes n. */
  function Low(n: nat, w: nat): (s: seq<bool>)
    requires n < Pow2(w)
    ensures |s| == w && Num(s) == n
  {
    if w == 0 then [] else [n % 2 == 1] + Low(n / 2, w - 1)
  }

  /** The bitwise or of two numbers. */
  function Or(x: nat, y: nat): nat
    decreases x + y
  {
    if x == 0 then y else if y == 0 then x else (if x % 2 == 1 || y % 2 == 1 then 1 else 0) + 2 * Or(x / 2, y / 2)
  }

  function OrBits(s: seq<bool>, t: seq<bool>): (r: seq<bool>)
    ensures |r| == if |s| < |t| then |t| else |s|
    ensures forall i :: 0 <= i < |r| ==> r[i] == ((i < |s| && s[i]) || (i < |t| && t[i]))
  {
    if s == [] then t else if t == [] then s else [s[0] || t[0]] + OrBits(s[1..], t[1..])
  }

  lemma {:induction false} OrIs(s: seq<bool>, t: seq<bool>)
    ensures Or(Num(s), Num(t)) == Num(OrBits(s, t))
    decreases |s|
  {
    if s != [] && t != [] {
      OrIs(s[1..], t[1..]);
      OrStep(Num(s), Num(t));
      hide Or;
      assert OrBits(s, t)[1..] == OrBits(s[1..], t[1..]);
    }
  }

  lemma OrStep(x: nat, y: nat)
    ensures Or(x, y) == (if x % 2 == 1 || y % 2 == 1 then 1 else 0) + 2 * Or(x / 2, y / 2)
  {
  }

  lemma OrBitsAbove(s: seq<bool>, t: seq<bool>)
    ensures OrBits(s, Zeros(|s|) + t) == s + t
  {
    hide OrBits, Zeros;
    var a, b := OrBits(s, Zeros(|s|) + t), s + t;
    assert |a| == |b| && forall i :: 0 <= i < |b| ==> a[i] == b[i];
  }

  lemma Swap(a: nat, b: nat)
    ensures a * b == b * a
  {
  }

  /** Bits put above those there are. */
  lemma OrAbove(x: nat, k: nat, y: nat, n: nat)
    requires x < Pow2(k) && y < Pow2(n)
    ensures Or(x, y * Pow2(k)) == Num(Low(x, k) + Low(y, n))
  {
    hide Num, Pow2, Or, OrBits, Low, Zeros;
    NumZeros(k);
    NumConcat(Zeros(k), Low(y, n));
    Swap(Pow2(k), y);
    OrIs(Low(x, k), Zeros(k) + Low(y, n));
    OrBitsAbove(Low(x, k), Low(y, n));
  }

  lemma {:induction false} ValZeros(n: nat)
    ensures Val(Zeros(n)) == 0
  {
    if n > 0 {
      assert Zeros(n)[..n - 1] == Zeros(n - 1);
      ValZeros(n - 1);
    }
  }

  lemma ValPadded(s: seq<bool>, n: nat)
    ensures Val(s + Zeros(n)) == Val(s) * Pow2(n)
  {
    ValConcat(s, Zeros(n));
    ValZeros(n);
  }

  // The next code of the same length.

  /** The position of the last bit that is not set, -1 if all are. */
  function LastFalse(code: seq<bool>): (m: int)
    ensures -1 <= m < |code|
    ensures m >= 0 ==> !code[m]
    ensures forall i :: m < i < |code| ==> code[i]
  {
    if code == [] then -1
    else if !code[|code| - 1] then |code| - 1
    else LastFalse(code[..|code| - 1])
  }

  /** The code after this one; the code after the last one is all zeros. */
  function Next(code: seq<bool>): (r: seq<bool>)
    ensures |r| == |code|
  {
    var m := LastFalse(code);
    if m < 0 then Zeros(|code|) else code[..m] + [true] + Zeros(|code| - 1 - m)
  }

  lemma {:induction false} ValOnes(s: seq<bool>)
    requires forall i :: 0 <= i < |s| ==> s[i]
    ensures Val(s) == Pow2(|s|) - 1
  {
    if s != [] {
      ValOnes(s[..|s| - 1]);
    }
  }

  lemma ValNext(code: seq<bool>)
    ensures LastFalse(code) >= 0 ==> Val(Next(code)) == Val(code) + 1
    ensures LastFalse(code) < 0 ==> Val(code) == Pow2(|code|) - 1
  {
    hide Val, Pow2, Next, LastFalse;
    var m := LastFalse(code);
    if m < 0 {
      ValOnes(code);
    } else {
      NextIs(code, m);
      ValCarry(code[..m], code[m + 1..]);
      assert code == code[..m] + [false] + code[m + 1..];
    }
  }

  lemma ValCarry(front: seq<bool>, ones: seq<bool>)
    requires forall i :: 0 <= i < |ones| ==> ones[i]
    ensures Val(front + [true] + Zeros(|ones|)) == Val(front + [false] + ones) + 1
  {
    hide Val, Pow2;
    var v, p := Val(front), Pow2(|ones|);
    ValConcat(front + [false], ones);
    ValOnes(ones);
    ValPadded(front + [true], |ones|);
    ValLast(front, false);
    ValLast(front, true);
    Distribute(2 * v, 1, p);
  }

  lemma NextIs(code: seq<bool>, m: nat)
    requires LastFalse(code) == m
    ensures Next(code) == code[..m] + [true] + Zeros(|code| - 1 - m)
  {
  }

  lemma ValLast(s: seq<bool>, b: bool)
    ensures Val(s + [b]) == 2 * Val(s) + Bit(b)
  {
    assert (s + [b])[..|s|] == s;
  }

  /** huft_build steps from a code to the next one by counting backwards. */
  method BackIncrement(i: nat, k: nat, ghost code: seq<bool>) returns (r: nat)
    requires |code| == k > 0 && i == Num(code)
    ensures r == Num(Next(code))
  {
    hide Num, Next;
    r := i;
    var j := Pow2(k - 1);
    ghost var e: nat := k;
    assert code[..k] == code;
    while j != 0 && r / j % 2 == 1
      invariant e <= k && j == (if e > 0 then Pow2(e - 1) else 0)
      invariant r == Num(code[..e])
      invariant forall i :: e <= i < k ==> code[i]
      decreases e
    {
      TopBit(code, e);
      r := r - j;
      j := j / 2;
      e := e - 1;
    }
    if e > 0 {
      TopBit(code, e);
    }
    NextNum(code, e);
    r := r + j;
  }

  lemma NumUnits()
    ensures Num([]) == 0 && Num([true]) == 1
  {
    assert [true][1..] == [];
  }

  lemma NextOfOnes(code: seq<bool>)
    requires LastFalse(code) == -1
    ensures Next(code) == Zeros(|code|)
  {
  }

  lemma NextNum(code: seq<bool>, e: nat)
    requires e <= |code| && (forall i :: e <= i < |code| ==> code[i]) && (e > 0 ==> !code[e - 1])
    ensures Num(Next(code)) == Num(code[..e]) + if e > 0 then Pow2(e - 1) else 0
  {
    hide Num, Pow2, LastFalse, Next, Zeros;
    NumUnits();
    if e > 0 {
      TopBit(code, e);
      LastFalseIs(code, e - 1);
      NextIs(code, e - 1);
      NumConcat(code[..e - 1], [true]);
      NumPadded(code[..e - 1] + [true], |code| - e);
    } else {
      assert code[..0] == [];
      LastFalseIs(code, -1);
      NextOfOnes(code);
      NumZeros(|code|);
    }
  }

  lemma TopBit(s: seq<bool>, e: nat)
    requires 0 < e <= |s|
    ensures Num(s[..e]) / Pow2(e - 1) % 2 == Bit(s[e - 1])
    ensures Num(s[..e]) == Num(s[..e - 1]) + if s[e - 1] then Pow2(e - 1) else 0
  {
    var t, m := s[..e], e - 1;
    assert t[..m] == s[..m] && t[m..] == [s[m]] && [s[m]][1..] == [];
    assert Num([s[m]]) == Bit(s[m]);
    hide Num, Pow2;
    NumSplit(t, m);
    assert t == t[..m] + t[m..];
    NumConcat(t[..m], t[m..]);
  }

  lemma LastFalseIs(code: seq<bool>, m: int)
    requires -1 <= m < |code|
    requires m >= 0 ==> !code[m]
    requires forall i :: m < i < |code| ==> code[i]
    ensures LastFalse(code) == m
  {
  }

  /** bi_reverse: the number sent least significant bit first that puts out code most significant bit first. */
  method BiReverse(code: nat, len: nat) returns (r: nat)
    requires 1 <= len && code < Pow2(len)
    ensures r == Num(ToBits(code, len))
  {
    hide Num, ToBits, Pow2;
    var res: nat, rest: nat, n: nat := 0, code, len;
    ghost var bits := ToBits(code, len);
    NumUnits();
    Ends(bits);
    while true
      invariant 1 <= n <= len && rest < Pow2(n)
      invariant ToBits(rest, n) == bits[..n] && res == 2 * Num(bits[n..])
      decreases n
    {
      ReverseStep(bits, rest, n);
      res := res + rest % 2;
      rest := rest / 2;
      res := res * 2;
      n := n - 1;
      if n == 0 {
        break;
      }
    }
    return res / 2;
  }

  lemma Ends(bits: seq<bool>)
    ensures bits[..|bits|] == bits && bits[|bits|..] == [] && bits[0..] == bits
  {
  }

  lemma ReverseStep(bits: seq<bool>, rest: nat, n: nat)
    requires 1 <= n <= |bits| && rest < Pow2(n) && ToBits(rest, n) == bits[..n]
    ensures rest / 2 < Pow2(n - 1) && ToBits(rest / 2, n - 1) == bits[..n - 1] && rest % 2 == Bit(bits[n - 1])
    ensures Num(bits[n - 1..]) == Bit(bits[n - 1]) + 2 * Num(bits[n..])
  {
    assert ToBits(rest, n)[..n - 1] == ToBits(rest / 2, n - 1);
    assert ToBits(rest, n)[n - 1] == bits[n - 1];
    assert bits[..n][..n - 1] == bits[..n - 1];
    assert bits[n - 1..][1..] == bits[n..];
  }
}
