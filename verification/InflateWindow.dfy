/**
 * The circular output window of inflate: adding data to the history without output
 * against decoding and flushing a stored block of the same data.
 */
module InflateWindow {
  import opened Bits
  import Arith
  import opened Wrappers
  import Adler32
  import InflateSpec
  import InflateFlow

  // Octets written round the window.

  function Wrap(size: nat, pos: nat): nat { if pos == size then 0 else pos }

  /** data written from pos on, starting over at the end of the window. */
  function Put(win: seq<byte>, pos: nat, data: seq<byte>): (r: (seq<byte>, nat))
    requires pos <= |win| && |win| > 0
    ensures |r.0| == |win| && r.1 <= |win|
  {
    if data == [] then (win, pos)
    else
      var (w, p) := Put(win, pos, data[..|data| - 1]);
      var at := Wrap(|win|, p);
      (w[at := data[|data| - 1]], at + 1)
  }

  lemma {:induction false} PutConcat(win: seq<byte>, pos: nat, a: seq<byte>, b: seq<byte>)
    requires pos <= |win| && |win| > 0
    ensures var (w, p) := Put(win, pos, a); Put(win, pos, a + b) == Put(w, p, b)
  {
    if b == [] {
      assert a + b == a;
    } else {
      assert (a + b)[..|a + b| - 1] == a + b[..|b| - 1];
      PutConcat(win, pos, a, b[..|b| - 1]);
    }
  }

  /** chunk in place of what was at pos. */
  function Over(win: seq<byte>, pos: nat, chunk: seq<byte>): seq<byte>
    requires pos + |chunk| <= |win|
  {
    win[..pos] + chunk + win[pos + |chunk|..]
  }

  /** What fits before the end of the window goes there in one piece. */
  lemma {:induction false} PutPiece(win: seq<byte>, pos: nat, chunk: seq<byte>)
    requires 0 < |win| && pos + |chunk| <= |win|
    ensures Put(win, pos, chunk) == (Over(win, pos, chunk), pos + |chunk|)
  {
    if chunk == [] {
      assert Over(win, pos, chunk) == win;
    } else {
      var m := |chunk| - 1;
      PutPiece(win, pos, chunk[..m]);
      assert Over(win, pos, chunk[..m])[pos + m := chunk[m]] == Over(win, pos, chunk);
    }
  }

  /** From the end of the window and from its start the same is written. */
  lemma {:induction false} PutWrapped(win: seq<byte>, pos: nat, data: seq<byte>)
    requires pos <= |win| && |win| > 0 && data != []
    ensures Put(win, pos, data) == Put(win, Wrap(|win|, pos), data)
  {
    if |data| > 1 {
      PutWrapped(win, pos, data[..|data| - 1]);
    }
  }

  /** One more piece, from a position that may just have been wrapped. */
  lemma PutMore(win: seq<byte>, pos: nat, done: seq<byte>, at: nat, chunk: seq<byte>)
    requires pos <= |win| && |win| > 0 && at + |chunk| <= |win| && chunk != []
    requires Wrap(|win|, Put(win, pos, done).1) == Wrap(|win|, at)
    ensures Put(win, pos, done + chunk) == (Over(Put(win, pos, done).0, at, chunk), at + |chunk|)
  {
    var (w, p) := Put(win, pos, done);
    PutConcat(win, pos, done, chunk);
    PutWrapped(w, p, chunk);
    PutWrapped(w, at, chunk);
    PutPiece(w, at, chunk);
  }

  // What the octets written cover.

  /** The octets that data takes the place of, one by one, when it is written from pos on. */
  function Covered(win: seq<byte>, pos: nat, data: seq<byte>): (r: seq<byte>)
    requires pos < |win|
    ensures |r| == |data|
  {
    seq(|data|, k requires 0 <= k < |data| => if k < |win| then win[(pos + k) % |win|] else data[k - |win|])
  }

  lemma OneRound(a: nat, b: nat, n: nat)
    requires n > 0 && a <= b <= a + n
    ensures a % n == b % n <==> a == b || b == a + n
  {
    var q, r := a / n, a % n;
    assert a == q * n + r;
    var d := b - a;
    if r + d < n {
      Divided(b, q, r + d, n);
    } else if r + d < 2 * n {
      assert (q + 1) * n == q * n + n;
      Divided(b, q + 1, r + d - n, n);
    }
  }

  lemma Divided(x: nat, q: nat, r: nat, n: nat)
    requires r < n && x == q * n + r
    ensures x % n == r
  {
    Arith.DivMod(x, q, r, n);
  }

  /** A place of the window holds what was last written there: the octet one round before, if there is one. */
  lemma {:induction false} PutAt(win: seq<byte>, pos: nat, done: seq<byte>, k: nat)
    requires pos < |win| && |done| <= k < |done| + |win|
    ensures Wrap(|win|, Put(win, pos, done).1) == (pos + |done|) % |win|
    ensures Put(win, pos, done).0[(pos + k) % |win|]
         == if k < |win| then win[(pos + k) % |win|] else done[k - |win|]
  {
    var n := |win|;
    if done == [] {
      Divided(pos, 0, pos, n);
    } else {
      var m := |done| - 1;
      PutAt(win, pos, done[..m], if k < m + n then k else m);
      NextPlace(pos + m, n);
      OneRound(pos + m, pos + k, n);
    }
  }

  lemma NextPlace(a: nat, n: nat)
    requires n > 0
    ensures Wrap(n, a % n + 1) == (a + 1) % n
  {
    var q, r := a / n, a % n;
    assert a == q * n + r;
    if r + 1 < n {
      Divided(a + 1, q, r + 1, n);
    } else {
      assert (q + 1) * n == q * n + n;
      Divided(a + 1, q + 1, 0, n);
    }
  }

  lemma CoveredOctet(win: seq<byte>, pos: nat, data: seq<byte>, i: nat, j: nat, window: seq<byte>, q: nat)
    requires pos < |win| && i + j < |data| && q + j < |win|
    requires window == Put(win, pos, data[..i]).0 && q == Wrap(|win|, Put(win, pos, data[..i]).1)
    ensures |window| == |win| && window[q + j] == Covered(win, pos, data)[i + j]
  {
    hide Put, Wrap;
    PutAt(win, pos, data[..i], i + j);
    assert (pos + i) % |win| == q;
    PlaceAhead(pos + i, j, |win|);
    assert (pos + (i + j)) % |win| == q + j;
  }

  /** A piece of the window about to be written over is the next piece of what the data covers. */
  lemma CoveredPiece(win: seq<byte>, pos: nat, data: seq<byte>, i: nat, t: nat, window: seq<byte>, q: nat)
    requires pos < |win| && i + t <= |data| && q + t <= |win| == |window|
    requires window == Put(win, pos, data[..i]).0 && q == Wrap(|win|, Put(win, pos, data[..i]).1)
    ensures window[q..q + t] == Covered(win, pos, data)[i..i + t]
  {
    hide Put, Wrap, Covered;
    var a, b := window[q..q + t], Covered(win, pos, data)[i..i + t];
    forall j | 0 <= j < t ensures a[j] == b[j] {
      CoveredOctet(win, pos, data, i, j, window, q);
    }
  }

  lemma PlaceAhead(a: nat, j: nat, n: nat)
    requires n > 0 && a % n + j < n
    ensures (a + j) % n == a % n + j
  {
    var q, r := a / n, a % n;
    assert a == q * n + r;
    Divided(a + j, q, r + j, n);
  }

  // The check kept on the output, if there is one.

  predicate CheckOk(check: Option<nat>) {
    check.Some? ==> check.value < Adler32.WORD && Adler32.Reduced(Adler32.Unpack(check.value))
  }

  function Summed(check: Option<nat>, data: seq<byte>): Option<nat> {
    if check.None? then None else Some(Adler32.Of(check.value, data))
  }

  lemma SummedConcat(check: Option<nat>, x: seq<byte>, y: seq<byte>)
    requires CheckOk(check)
    ensures CheckOk(Summed(check, x)) && Summed(Summed(check, x), y) == Summed(check, x + y)
  {
    if check.Some? {
      Adler32.OfConcat(check.value, x, y);
      Adler32.RunReduced(Adler32.Unpack(check.value), x);
      Adler32.UnpackPack(Adler32.Run(Adler32.Unpack(check.value), x));
    }
  }

  lemma SummedNothing(check: Option<nat>)
    requires CheckOk(check)
    ensures Summed(check, []) == check
  {
  }

  /** All that was output since before has been summed. */
  predicate Kept(before: seq<byte>, check0: Option<nat>, output: seq<byte>, check: Option<nat>) {
    CheckOk(check) && before <= output && check == Summed(check0, output[|before|..])
  }

  lemma NothingKept(before: seq<byte>, check0: Option<nat>)
    requires CheckOk(check0)
    ensures Kept(before, check0, before, check0)
  {
    assert before[|before|..] == [];
    SummedNothing(check0);
  }

  lemma MoreKept(before: seq<byte>, check0: Option<nat>, mid: seq<byte>, check1: Option<nat>,
                 output: seq<byte>, check: Option<nat>)
    requires CheckOk(check0) && Kept(before, check0, mid, check1) && Kept(mid, check1, output, check)
    ensures Kept(before, check0, output, check)
  {
    hide Summed, CheckOk;
    SummedConcat(check0, mid[|before|..], output[|mid|..]);
    assert output[|before|..] == mid[|before|..] + output[|mid|..];
  }

  /** The first i octets of data are in the window, the next place is q, and what they covered is summed. */
  predicate History(win: seq<byte>, pos: nat, data: seq<byte>, i: nat, window: seq<byte>, q: nat,
                    check0: Option<nat>, check: Option<nat>)
    requires pos < |win| && i <= |data|
  {
    && window == Put(win, pos, data[..i]).0 && q == Wrap(|win|, Put(win, pos, data[..i]).1)
    && CheckOk(check0) && CheckOk(check) && check == Summed(check0, Covered(win, pos, data)[..i])
  }

  lemma NoHistory(win: seq<byte>, pos: nat, data: seq<byte>, check: Option<nat>)
    requires pos < |win| && CheckOk(check)
    ensures History(win, pos, data, 0, win, pos, check, check)
  {
    SummedNothing(check);
    assert data[..0] == [] && Covered(win, pos, data)[..0] == [];
  }

  lemma HistorySummed(win: seq<byte>, pos: nat, data: seq<byte>, i: nat, t: nat, window: seq<byte>, q: nat,
                      check0: Option<nat>, check: Option<nat>)
    requires pos < |win| && i + t <= |data| && q + t <= |win| == |window|
    requires History(win, pos, data, i, window, q, check0, check)
    ensures CheckOk(Summed(check, window[q..q + t]))
    ensures Summed(check, window[q..q + t]) == Summed(check0, Covered(win, pos, data)[..i + t])
  {
    hide Put, Wrap, Covered, Summed, CheckOk;
    var covered := Covered(win, pos, data);
    CoveredPiece(win, pos, data, i, t, window, q);
    SummedConcat(check0, covered[..i], covered[i..i + t]);
    SummedConcat(check, covered[i..i + t], []);
    SplitAt(covered, i, t);
  }

  lemma MoreHistory(win: seq<byte>, pos: nat, data: seq<byte>, i: nat, t: nat, window: seq<byte>, q: nat,
                    check0: Option<nat>, check: Option<nat>)
    requires pos < |win| && 0 < t && i + t <= |data| && q + t <= |win| == |window|
    requires History(win, pos, data, i, window, q, check0, check)
    ensures |Over(window, q, data[i..i + t])| == |win|
    ensures History(win, pos, data, i + t, Over(window, q, data[i..i + t]), Wrap(|win|, q + t),
                    check0, Summed(check, window[q..q + t]))
  {
    hide Put, Over, Covered, Summed, CheckOk;
    HistorySummed(win, pos, data, i, t, window, q, check0, check);
    PutMore(win, pos, data[..i], q, data[i..i + t]);
    SplitAt(data, i, t);
    OverSize(window, q, data[i..i + t]);
  }

  lemma AllHistory(win: seq<byte>, pos: nat, data: seq<byte>, window: seq<byte>, q: nat,
                   check0: Option<nat>, check: Option<nat>)
    requires pos < |win| && History(win, pos, data, |data|, window, q, check0, check)
    ensures window == Put(win, pos, data).0 && q == Wrap(|win|, Put(win, pos, data).1)
    ensures CheckOk(check) && check == Summed(check0, Covered(win, pos, data))
  {
    hide Put, Covered, Summed, CheckOk;
    assert data[..|data|] == data && Covered(win, pos, data)[..|data|] == Covered(win, pos, data);
  }

  /**
   * inflate_addhistory sums the octets of the window before it writes the data over them. The
   * check comes out right exactly if these octets and the data have the same two sums.
   */
  lemma HistoryChecked(check: nat, win: seq<byte>, pos: nat, data: seq<byte>)
    requires CheckOk(Some(check)) && pos < |win|
    ensures Summed(Some(check), Covered(win, pos, data)) == Summed(Some(check), data)
       <==> Adler32.Alike(Covered(win, pos, data), data)
  {
    hide Covered, Adler32.Of, Adler32.Alike;
    Adler32.OfSameIff(check, Covered(win, pos, data), data);
  }

  /** So it is right whenever the window holds the data already. */
  lemma HeldChecked(check: nat, win: seq<byte>, pos: nat, data: seq<byte>)
    requires CheckOk(Some(check)) && pos < |win| && Covered(win, pos, data) == data
    ensures Summed(Some(check), Covered(win, pos, data)) == Summed(Some(check), data)
  {
    HistoryChecked(check, win, pos, data);
  }

  lemma CoveredOne(win: seq<byte>, pos: nat, x: byte)
    requires pos < |win|
    ensures Covered(win, pos, [x]) == [win[pos]]
  {
    Divided(pos, 0, pos, |win|);
  }

  lemma SumOne(x: byte)
    ensures Adler32.Sum([x]) == x && Adler32.Weighted([x]) == x
  {
    assert [x][..0] == [];
  }

  /** And for one octet only then. */
  lemma OneOctetChecked(check: nat, win: seq<byte>, pos: nat, x: byte)
    requires CheckOk(Some(check)) && pos < |win|
    ensures Summed(Some(check), Covered(win, pos, [x])) == Summed(Some(check), [x]) <==> win[pos] == x
  {
    hide Covered, Summed, Adler32.Sum, Adler32.Weighted;
    HistoryChecked(check, win, pos, [x]);
    CoveredOne(win, pos, x);
    SumOne(x);
    SumOne(win[pos]);
  }

  /** The octets of the window from pos on, round and round. */
  function Round(win: seq<byte>, pos: nat, n: nat): (r: seq<byte>)
    requires pos < |win|
    ensures |r| == n
  {
    seq(n, k requires 0 <= k => win[(pos + k) % |win|])
  }

  lemma RoundAgain(win: seq<byte>, pos: nat, n: nat, x: byte)
    requires pos < |win|
    ensures Covered(win, pos, Round(win, pos, n) + [x]) == Round(win, pos, n + 1)
  {
    var data := Round(win, pos, n) + [x];
    forall k | 0 <= k <= n ensures Covered(win, pos, data)[k] == Round(win, pos, n + 1)[k] {
      if k >= |win| {
        OneRound(pos + (k - |win|), pos + k, |win|);
      }
    }
  }

  lemma SumNext(data: seq<byte>, x: byte)
    ensures Adler32.Sum(data + [x]) == Adler32.Sum(data) + x
  {
    assert (data + [x])[..|data|] == data;
  }

  lemma RoundNext(win: seq<byte>, pos: nat, n: nat)
    requires pos < |win|
    ensures Round(win, pos, n + 1) == Round(win, pos, n) + [win[(pos + n) % |win|]]
  {
  }

  /** Two texts that differ in their last octet only have different sums. */
  lemma LastDiffers(same: seq<byte>, x: byte, y: byte)
    requires x != y
    ensures !Adler32.Alike(same + [y], same + [x])
  {
    hide Adler32.Sum, Adler32.Weighted;
    SumNext(same, x);
    SumNext(same, y);
    Adler32.Cancel(Adler32.Sum(same), x, y);
  }

  /**
   * Whatever the window and the position, for every length there is history that leaves a wrong
   * check: what is there already, with another last octet.
   */
  lemma HistoryUnchecked(check: nat, win: seq<byte>, pos: nat, n: nat, x: byte)
    requires CheckOk(Some(check)) && pos < |win| && x != win[(pos + n) % |win|]
    ensures var data := Round(win, pos, n) + [x];
      Summed(Some(check), Covered(win, pos, data)) != Summed(Some(check), data)
  {
    hide Covered, Summed, Round, CheckOk, Adler32.Alike;
    RoundAgain(win, pos, n, x);
    RoundNext(win, pos, n);
    HistoryChecked(check, win, pos, Round(win, pos, n) + [x]);
    LastDiffers(Round(win, pos, n), x, win[(pos + n) % |win|]);
  }

  /** For instance one octet 1 in the smallest window there is, all zeros. */
  lemma OneUnchecked()
    ensures var win: seq<byte> := seq(256, _ => 0);
      Summed(Some(1), Covered(win, 0, [1])) != Summed(Some(1), [1])
  {
    hide Covered, Summed;
    OneOctetChecked(1, seq(256, _ => 0), 0, 1);
  }

  // Octets written and not yet handed on.

  function Pending(win: seq<byte>, read: nat, write: nat): seq<byte>
    requires read <= |win| && write <= |win|
  {
    if read <= write then win[read..write] else win[read..] + win[..write]
  }

  /** WAVAIL: how far writing at q may go without wrapping or running into read. */
  function Avail(size: nat, read: nat, q: nat): int {
    if q < read then read - q - 1 else size - q
  }

  lemma PendingGrows(win: seq<byte>, read: nat, q: nat, chunk: seq<byte>)
    requires read <= |win| && q <= |win| && |chunk| <= Avail(|win|, read, q)
    ensures q + |chunk| <= |win|
    ensures Pending(Over(win, q, chunk), read, q + |chunk|) == Pending(win, read, q) + chunk
  {
    var n, w := |chunk|, Over(win, q, chunk);
    if read <= q {
      assert w[read..q + n] == win[read..q] + chunk;
    } else {
      assert w[read..] == win[read..];
      assert w[..q + n] == win[..q] + chunk;
      assert win[read..] + (win[..q] + chunk) == win[read..] + win[..q] + chunk;
    }
  }

  lemma PendingWrapped(win: seq<byte>, read: nat)
    requires 0 < read <= |win|
    ensures Pending(win, read, |win|) == Pending(win, read, 0)
  {
  }

  /** done has been written since the window was win and its write position pos; what is not output is pending. */
  predicate Stored(win: seq<byte>, pos: nat, done: seq<byte>, window: seq<byte>, read: nat, write: nat,
                   before: seq<byte>, output: seq<byte>)
    requires pos <= |win| == |window| && |win| > 0 && read <= |win| && write <= |win|
  {
    && window == Put(win, pos, done).0 && Wrap(|win|, write) == Wrap(|win|, Put(win, pos, done).1)
    && output + Pending(window, read, write) == before + done
  }

  lemma StoreMore(win: seq<byte>, pos: nat, data: seq<byte>, i: nat, t: nat, window: seq<byte>, read: nat, write: nat,
                  before: seq<byte>, output: seq<byte>)
    requires pos <= |win| == |window| && |win| > 0 && read <= |win| && write <= |win| && 0 < t && i + t <= |data|
    requires Stored(win, pos, data[..i], window, read, write, before, output) && t <= Avail(|win|, read, write)
    ensures write + t <= |win| && |Over(window, write, data[i..i + t])| == |win|
    ensures Stored(win, pos, data[..i + t], Over(window, write, data[i..i + t]), read, write + t, before, output)
  {
    hide Put, Pending, Wrap, Over;
    var chunk := data[i..i + t];
    PendingGrows(window, read, write, chunk);
    OverSize(window, write, chunk);
    PutMore(win, pos, data[..i], write, chunk);
    SplitAt(data, i, t);
    Regroup(output, Pending(window, read, write), before, data[..i], chunk);
  }

  lemma WrapIs(size: nat, pos: nat)
    ensures Wrap(size, pos) == if pos == size then 0 else pos
  {
  }

  lemma OverSize(win: seq<byte>, pos: nat, chunk: seq<byte>)
    requires pos + |chunk| <= |win|
    ensures |Over(win, pos, chunk)| == |win|
  {
  }

  lemma SplitAt(data: seq<byte>, i: nat, t: nat)
    requires i + t <= |data|
    ensures data[..i] + data[i..i + t] == data[..i + t]
  {
  }

  lemma Regroup(a: seq<byte>, b: seq<byte>, c: seq<byte>, d: seq<byte>, x: seq<byte>)
    requires a + b == c + d
    ensures a + (b + x) == c + (d + x)
  {
    assert a + (b + x) == a + b + x;
    assert c + (d + x) == c + d + x;
  }

  /** Wrapping and flushing change neither. */
  lemma StoredMoved(win: seq<byte>, pos: nat, done: seq<byte>, window: seq<byte>, before: seq<byte>,
                    read: nat, write: nat, output: seq<byte>, read2: nat, write2: nat, output2: seq<byte>)
    requires pos <= |win| == |window| && |win| > 0 && read <= |win| && write <= |win| && read2 <= |win|
             && write2 <= |win|
    requires Stored(win, pos, done, window, read, write, before, output) && Wrap(|win|, write2) == Wrap(|win|, write)
    requires output2 + Pending(window, read2, write2) == output + Pending(window, read, write)
    ensures Stored(win, pos, done, window, read2, write2, before, output2)
  {
  }

  lemma AllStored(win: seq<byte>, pos: nat, done: seq<byte>, window: seq<byte>, read: nat, write: nat,
                  before: seq<byte>, output: seq<byte>)
    requires pos <= |win| == |window| && |win| > 0 && read <= |win| && write <= |win|
    requires Stored(win, pos, done, window, read, write, before, output)
    ensures window == Put(win, pos, done).0 && Wrap(|win|, write) == Wrap(|win|, Put(win, pos, done).1)
    ensures output + Pending(window, read, write) == before + done
  {
  }

  lemma FirstStored(win: seq<byte>, pos: nat, before: seq<byte>)
    requires pos <= |win| && |win| > 0
    ensures Stored(win, pos, [], win, pos, pos, before, before)
  {
  }

  lemma FlushKept(before: seq<byte>, check0: Option<nat>, output: seq<byte>, check: Option<nat>)
    requires CheckOk(check) && before <= output && check == Summed(check0, output[|before|..])
    ensures Kept(before, check0, output, check)
  {
  }

  lemma AllKept(before: seq<byte>, check0: Option<nat>, output: seq<byte>, check: Option<nat>, data: seq<byte>)
    requires Kept(before, check0, output, check) && output == before + data
    ensures check == Summed(check0, data)
  {
    assert output[|before|..] == data;
  }

  datatype Outcome = Ok | StreamError | DataError

  class OutputWindow {
    var window: seq<byte>
    var read: nat
    var write: nat
    var output: seq<byte>
    var check: Option<nat>

    ghost predicate Valid()
      reads this
    {
      |window| > 0 && read <= |window| && write <= |window| && CheckOk(check)
    }

    /** Nothing is pending and the pointers are wrapped. */
    ghost predicate CaughtUp()
      reads this
    {
      Valid() && read == write < |window|
    }

    /** inflate_flush, with room for all that is pending. */
    method Flush()
      requires Valid()
      modifies this`read, this`write, this`output, this`check
      ensures CaughtUp() && write == Wrap(|window|, old(write))
      ensures output == old(output) + Pending(window, old(read), old(write))
      ensures check == Summed(old(check), Pending(window, old(read), old(write)))
    {
      hide Summed, CheckOk;
      var q := read;
      var n := (if q <= write then write else |window|) - q;
      ghost var first := window[q..q + n];
      SummedConcat(check, first, []);
      check := Summed(check, window[q..q + n]);
      output := output + window[q..q + n];
      q := q + n;
      if q == |window| {
        q := 0;
        if write == |window| {
          write := 0;
        }
        n := write - q;
        SummedConcat(old(check), first, window[q..q + n]);
        assert first + window[q..q + n] == Pending(window, old(read), old(write));
        SummedConcat(check, window[q..q + n], []);
        check := Summed(check, window[q..q + n]);
        output := output + window[q..q + n];
        q := q + n;
      }
      read := q;
    }

    /** inflate_addhistory: the data goes into the window and the read pointer follows. */
    method AddHistory(data: seq<byte>, atBlock: bool) returns (r: Outcome)
      requires Valid() && (read == write ==> write < |window|)
      modifies this`window, this`read, this`write, this`check
      ensures old(read) != old(write) ==>
        r == StreamError && window == old(window) && read == old(read) && write == old(write) && check == old(check)
      ensures old(read) == old(write) && !atBlock ==>
        r == DataError && window == old(window) && read == old(read) && write == old(write) && check == old(check)
      ensures old(read) == old(write) && atBlock ==>
        r == Ok && CaughtUp() && window == Put(old(window), old(write), data).0
        && write == Wrap(|window|, Put(old(window), old(write), data).1)
        && check == Summed(old(check), Covered(old(window), old(write), data))
    {
      hide Put, Covered, Summed, CheckOk, Wrap;
      if read != write {
        return StreamError;
      }
      if !atBlock {
        return DataError;
      }
      CopyHistory(data);
      return Ok;
    }

    /** The loop of inflate_addhistory: what lies at the write pointer is summed, then written over. */
    method CopyHistory(data: seq<byte>)
      requires CaughtUp()
      modifies this`window, this`read, this`write, this`check
      ensures CaughtUp() && window == Put(old(window), old(write), data).0
      ensures write == Wrap(|window|, Put(old(window), old(write), data).1)
      ensures check == Summed(old(check), Covered(old(window), old(write), data))
    {
      hide Put, Over, Covered, Summed, CheckOk, History, Wrap;
      var q, i := write, 0;
      var m := |window| - q;
      ghost var win, pos := window, write;
      NoHistory(win, pos, data, check);
      while i < |data|
        invariant 0 <= i <= |data| && |window| == |win| && read == q < |window| && m == |window| - q
        invariant History(win, pos, data, i, window, q, old(check), check)
      {
        var t := if |data| - i > m then m else |data| - i;
        MoreHistory(win, pos, data, i, t, window, q, old(check), check);
        WrapIs(|window|, q + t);
        check := Summed(check, window[q..q + t]);
        window := Over(window, q, data[i..i + t]);
        q := q + t;
        i := i + t;
        read := q;
        if q == |window| {
          read, q := 0, 0;
        }
        m := |window| - q;
      }
      AllHistory(win, pos, data, window, q, old(check), check);
      write := q;
    }

    /** The STORED state of inflate_blocks for all of a block, and the flush when it is done. */
    method StoredBlock(data: seq<byte>)
      requires CaughtUp()
      modifies this`window, this`read, this`write, this`output, this`check
      ensures CaughtUp() && output == old(output) + data && check == Summed(old(check), data)
      ensures window == Put(old(window), old(write), data).0
      ensures write == Wrap(|window|, Put(old(window), old(write), data).1)
    {
      hide Put, Over, Pending, Wrap, Stored, Summed, CheckOk, Kept;
      var i := 0;
      ghost var win, pos := window, write;
      FirstStored(win, pos, output);
      NothingKept(output, check);
      assert data[..0] == [];
      while i < |data|
        invariant 0 <= i <= |data| && Valid() && |window| == |win|
        invariant Stored(win, pos, data[..i], window, read, write, old(output), output)
        invariant Kept(old(output), old(check), output, check)
      {
        ghost var r1, w1, o1, c1 := read, write, output, check;
        NeedOut();
        MoreKept(old(output), old(check), o1, c1, output, check);
        StoredMoved(win, pos, data[..i], window, old(output), r1, w1, o1, read, write, output);
        var m := Avail(|window|, read, write);
        var t := if |data| - i > m then m else |data| - i;
        StoreMore(win, pos, data, i, t, window, read, write, old(output), output);
        window := Over(window, write, data[i..i + t]);
        write := write + t;
        i := i + t;
      }
      assert data[..i] == data;
      AllStored(win, pos, data, window, read, write, old(output), output);
      ghost var o2, c2 := output, check;
      Flush();
      FlushKept(o2, c2, output, check);
      MoreKept(old(output), old(check), o2, c2, output, check);
      AllKept(old(output), old(check), output, check, data);
    }

    /** NEEDOUT: wrap, and if need be flush, until there is room. */
    method NeedOut()
      requires Valid()
      modifies this`read, this`write, this`output, this`check
      ensures Valid() && Avail(|window|, read, write) > 0
      ensures Wrap(|window|, write) == Wrap(|window|, old(write))
      ensures output + Pending(window, read, write) == old(output) + Pending(window, old(read), old(write))
      ensures Kept(old(output), old(check), output, check)
    {
      NothingKept(output, check);
      hide Kept, Summed, CheckOk;
      if Avail(|window|, read, write) == 0 {
        if write == |window| && read != 0 {
          PendingWrapped(window, read);
          write := 0;
        }
        if Avail(|window|, read, write) == 0 {
          Flush();
          FlushKept(old(output), old(check), output, check);
          assert Pending(window, read, write) == [];
        }
      }
    }

    /** All that has been written so far, put out or not, and the window. */
    ghost function AsFlow(): InflateFlow.Flow
      requires Valid()
      reads this
    {
      InflateFlow.Flow(window, write, output + Pending(window, read, write))
    }

    /** NEEDOUT and OUTBYTE. */
    method OutByte(x: byte)
      requires Valid()
      modifies this`window, this`read, this`write, this`output, this`check
      ensures Valid() && AsFlow() == InflateFlow.Emit(old(AsFlow()), x)
      ensures Kept(old(output), old(check), output, check)
    {
      hide Kept, Summed, CheckOk, Pending;
      NeedOut();
      PendingGrows(window, read, write, [x]);
      OverOne(window, write, x);
      window := window[write := x];
      write := write + 1;
    }

    /** The COPY state of inflate_codes: each octet from dist before, flushing whenever the window is full. */
    method CopyMatch(dist: nat, len: nat)
      requires Valid() && 1 <= dist <= |window|
      modifies this`window, this`read, this`write, this`output, this`check
      ensures Valid() && |window| == old(|window|)
      ensures AsFlow() == InflateFlow.EmitCopy(old(AsFlow()), dist, len)
      ensures CheckOk(old(check)) && Kept(old(output), old(check), output, check)
    {
      hide Kept, Summed, CheckOk, Pending, InflateFlow.Emit;
      NothingKept(output, check);
      ghost var start := AsFlow();
      var f := if write < dist then |window| - (dist - write) else write - dist;
      var left := len;
      while left > 0
        invariant 0 <= left <= len && Valid() && |window| == old(|window|)
        invariant f == InflateSpec.Source(|window|, InflateFlow.Place(AsFlow()), dist)
        invariant InflateFlow.EmitCopy(AsFlow(), dist, left) == InflateFlow.EmitCopy(start, dist, len)
        invariant Kept(old(output), old(check), output, check)
      {
        ghost var before, o1, c1 := AsFlow(), output, check;
        OutByte(window[f]);
        SourceNext(before, dist, before.window[f]);
        MoreKept(old(output), old(check), o1, c1, output, check);
        f := f + 1;
        if f == |window| {
          f := 0;
        }
        left := left - 1;
      }
    }
  }

  lemma OverOne(win: seq<byte>, pos: nat, x: byte)
    requires pos < |win|
    ensures Over(win, pos, [x]) == win[pos := x]
  {
  }

  /** The source moves on with the place it is copied to. */
  lemma SourceNext(f: InflateFlow.Flow, dist: nat, x: byte)
    requires InflateFlow.FlowOk(f) && 1 <= dist <= |f.window|
    ensures var n := |f.window|; var s := InflateSpec.Source(n, InflateFlow.Place(f), dist);
      InflateSpec.Source(n, InflateFlow.Place(InflateFlow.Emit(f, x)), dist) == if s + 1 == n then 0 else s + 1
  {
  }
}
