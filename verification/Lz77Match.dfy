/** Inserting strings and finding the longest match in the window. */
module Lz77Match {
  import opened Lz77Spec
  import opened Lz77Chains

  /** The first n octets of the window are the stream from base on. */
  predicate WindowOk(window: seq<bv8>, v: View, n: nat) {
    && |window| == 2 * v.w && n <= 2 * v.w && v.base + n == |v.stream|
    && forall i :: 0 <= i < n ==> window[i] == v.stream[v.base + i]
  }

  /** One more update makes the running hash that of the string at x, if all of it is there. */
  predicate Ready(hs: Hashing, insH: bv16, stream: seq<bv8>, x: nat)
    requires hs.shift < 8
  {
    x + 2 < |stream| ==> Update(hs, insH, stream[x + 2]) == Hash3(hs, stream[x], stream[x + 1], stream[x + 2])
  }

  lemma RolledOn(hs: Hashing, stream: seq<bv8>, x: nat)
    requires HashingOk(hs) && x + 2 < |stream|
    ensures Ready(hs, Hash3(hs, stream[x], stream[x + 1], stream[x + 2]), stream, x + 1)
  {
    if x + 3 < |stream| {
      OldestDrops(hs, stream[x] as bv16, stream[x + 1], stream[x + 2], stream[x + 3]);
    }
  }

  /** The update gives the key of the string at x and makes the hash ready for the next one. */
  lemma KeyIs(hs: Hashing, insH: bv16, stream: seq<bv8>, x: nat)
    requires HashingOk(hs) && x + 2 < |stream| && Ready(hs, insH, stream, x)
    ensures var h := Update(hs, insH, stream[x + 2]); Key(h) == HashAt(hs, stream, x) && Ready(hs, h, stream, x + 1)
  {
    RolledOn(hs, stream, x);
    hide Update, Hash3, HashingOk, Key;
  }

  lemma Shifts(d: Dict, v: View)
    requires ChainsOk(d, v)
    ensures HashingOk(v.hs) && v.hs.shift < 8 && |d.prev| == v.w > 0
  {
    hide HeadOk, LinkOk, NoneForgotten;
  }

  /** INSERT_STRING: the string at p joins its chain; hashHead is the previous head. */
  method InsertString(dict: Dict, insH: bv16, window: seq<bv8>, p: nat, w: nat, hs: Hashing, ghost v: View)
    returns (dict2: Dict, insH2: bv16, hashHead: nat, ghost v2: View)
    requires ChainsOk(dict, v) && v.w == w && v.hs == hs && v.base + p > v.last && v.base + p + 2 < |v.stream|
    requires p + 2 < |window| && window[p + 2] == v.stream[v.base + p + 2]
    requires hs.shift < 8 && Ready(hs, insH, v.stream, v.base + p)
    ensures ChainsOk(dict2, v2) && v2 == Inserted(v, p) && Ready(hs, insH2, v.stream, v.base + p + 1)
    ensures hashHead != 0 ==> hashHead < p && Marked(v, v.base + hashHead) && SameHash(v, v.base + hashHead, v.base + p)
    ensures NewestIs(v, v.base + p, hashHead)
  {
    hide Update, Hash3, HashingOk, Key, ChainsOk, HashAt, Ready, NewestIs;
    Shifts(dict, v);
    insH2 := Update(hs, insH, window[p + 2]);
    var key := Key(insH2);
    KeyIs(hs, insH, v.stream, v.base + p);
    InsertOk(dict, v, p, key);
    HeadIs(dict, v, key);
    hashHead := HeadOf(dict, key);
    HeadIsNewest(dict, v, v.base + p);
    dict2 := Dict(dict.head[key := p], dict.prev[p % w := hashHead]);
    v2 := Inserted(v, p);
  }

  /** No string inserted and still in the window has the hash of the one at y and is newer than p. */
  predicate NewestIs(v: View, y: nat, p: nat)
    requires v.hs.shift < 8
  {
    forall x :: x in v.marks && v.base < x < y && SameHash(v, x, y) ==> x <= v.base + p
  }

  lemma NewestAfter(v: View, p: nat, head: nat)
    requires v.hs.shift < 8 && NewestIs(v, v.base + p, head)
    ensures NewestIs(Inserted(v, p), v.base + p, head)
  {
    hide HashAt;
    forall x | x in Inserted(v, p).marks && v.base < x < v.base + p && SameHash(Inserted(v, p), x, v.base + p)
      ensures x <= v.base + head
    {
      assert SameHash(v, x, v.base + p);
    }
  }

  lemma HeadIsNewest(d: Dict, v: View, y: nat)
    requires ChainsOk(d, v) && v.hs.shift < 8 && y + 2 < |v.stream|
    ensures NewestIs(v, y, HeadOf(d, HashAt(v.hs, v.stream, y)))
  {
    hide HashAt, ChainsOk;
    forall x | x in v.marks && v.base < x < y && SameHash(v, x, y)
      ensures x <= v.base + HeadOf(d, HashAt(v.hs, v.stream, y))
    {
      HeadNewest(d, v, x);
    }
  }

  // Comparing.

  /** From the fourth octet on, the strings at s and at m agree up to len. */
  predicate AgreeFrom3(window: seq<bv8>, s: nat, m: nat, len: nat) {
    && m < s && s + len <= |window|
    && forall j :: s + 3 <= j < s + len ==> window[j] == window[j - (s - m)]
  }

  /** How far two strings agree, comparing from the fourth octet on and checking the end every eight octets. */
  method MatchLength(window: seq<bv8>, s: nat, m: nat) returns (len: nat)
    requires m < s && s + MAX_MATCH < |window|
    ensures 3 <= len <= MAX_MATCH && AgreeFrom3(window, s, m, len)
    ensures len == MAX_MATCH || window[s + len] != window[m + len]
  {
    var scan, same, rounds := 2, true, 0;
    while same && scan < MAX_MATCH
      invariant 0 <= rounds <= 32 && 2 <= scan <= MAX_MATCH && (same ==> scan == 2 + 8 * rounds)
      invariant AgreeFrom3(window, s, m, scan) && (same && scan > 2 ==> window[s + scan] == window[m + scan])
      invariant same || (scan >= 3 && window[s + scan] != window[m + scan])
      decreases 32 - rounds
    {
      var i := 0;
      while i < 8 && same
        invariant 0 <= i <= 8 && 2 + 8 * rounds + i == scan <= MAX_MATCH
        invariant AgreeFrom3(window, s, m, scan) && (same && scan > 2 ==> window[s + scan] == window[m + scan])
        invariant same || (scan >= 3 && window[s + scan] != window[m + scan])
      {
        scan := scan + 1;
        same := window[s + scan] == window[m + scan];
        i := i + 1;
      }
      rounds := rounds + 1;
    }
    len := scan;
  }

  // The longest match.

  function MaxDist(w: nat): nat
    requires w >= MIN_LOOKAHEAD
  {
    w - MIN_LOOKAHEAD
  }

  /** The strings at s and at s - d agree for len octets of the window. */
  predicate Agree(window: seq<bv8>, s: nat, d: nat, len: nat) {
    && 1 <= d <= s && s + len <= |window|
    && forall j :: s <= j < s + len ==> window[j] == window[j - d]
  }

  /** Two equal octets and equal hashes make three, and the rest was compared. */
  lemma WholeAgree(window: seq<bv8>, v: View, n: nat, s: nat, m: nat, len: nat)
    requires HashingOk(v.hs) && WindowOk(window, v, n) && AgreeFrom3(window, s, m, len) && 3 <= len
    requires s + 2 < n && window[s] == window[m] && window[s + 1] == window[m + 1]
    requires SameHash(v, v.base + m, v.base + s)
    ensures Agree(window, s, s - m, len)
  {
    var x, y := v.base + m, v.base + s;
    var st := v.stream;
    assert st[x] == window[m] && st[x + 1] == window[m + 1] && st[x + 2] == window[m + 2];
    assert st[y] == window[s] && st[y + 1] == window[s + 1] && st[y + 2] == window[s + 2];
    KeyInjective(Hash3(v.hs, st[x], st[x + 1], st[x + 2]), Hash3(v.hs, st[y], st[y + 1], st[y + 2]));
    ThirdEqual(v.hs, st[y], st[y + 1], st[x + 2], st[y + 2]);
  }

  /** A place the search may look at: on the chain of the string at s, and no further back than allowed. */
  predicate Candidate(v: View, s: nat, lookahead: nat, cur: nat)
    requires v.hs.shift < 8 && v.w >= MIN_LOOKAHEAD
  {
    && 0 < cur < s && s - cur <= MaxDist(v.w)
    && Marked(v, v.base + cur) && Live(v, v.base + cur)
    && (lookahead >= MIN_MATCH ==> SameHash(v, v.base + cur, v.base + s))
  }

  lemma NextCandidate(d: Dict, v: View, s: nat, lookahead: nat, cur: nat)
    requires ChainsOk(d, v) && v.hs.shift < 8 && v.w >= MIN_LOOKAHEAD && Candidate(v, s, lookahead, cur)
    requires v.last <= v.base + s
    ensures |d.prev| == v.w
    ensures var q := d.prev[cur % v.w];
      (if s > MaxDist(v.w) then q > s - MaxDist(v.w) else q > 0) ==> q < cur && Candidate(v, s, lookahead, q)
    ensures lookahead >= MIN_MATCH ==> NewestBut(v, s, cur, d.prev[cur % v.w])
  {
    hide HashAt, HashingOk, ChainsOk;
    Shifts(d, v);
    Follow(d, v, cur);
    if lookahead >= MIN_MATCH {
      forall y | y in v.marks && v.base < y < v.base + cur && SameHash(v, y, v.base + s)
        ensures y <= v.base + d.prev[cur % v.w]
      {
        NoneBetween(d, v, v.base + cur, y);
      }
    }
  }

  // Which places are looked at, and what is found.

  /** Apart from cur and what is newer, no string with the hash of the one at s is newer than q. */
  predicate NewestBut(v: View, s: nat, cur: nat, q: nat)
    requires v.hs.shift < 8
  {
    forall y :: y in v.marks && v.base < y < v.base + cur && SameHash(v, y, v.base + s) ==> y <= v.base + q
  }

  /** The octets at window position s repeat those at x for k octets. */
  predicate Repeats(v: View, x: nat, s: nat, k: nat) {
    x < v.base + s && Matches(v.stream, v.base + s - x, v.base + s, k)
  }

  /** The place z repeats no further than len, as far as a match may go. */
  predicate LongestAt(v: View, s: nat, lookahead: nat, z: nat, len: nat) {
    forall k: nat :: k <= lookahead && k <= MAX_MATCH && Repeats(v, z, s, k) ==> k <= len
  }

  /** No place seen repeats further than len, as far as a match may go. */
  predicate Beats(v: View, s: nat, lookahead: nat, seen: set<nat>, len: nat) {
    forall z, k: nat ::
      z in seen && k <= lookahead && k <= MAX_MATCH && Repeats(v, z, s, k) ==> k <= len
  }

  /** Of the places seen that repeat for len octets, none is nearer than start. */
  predicate Nearest(v: View, s: nat, seen: set<nat>, start: nat, len: nat) {
    forall z :: z in seen && Repeats(v, z, s, len) ==> z <= v.base + start
  }

  /** A string in reach with the hash of the one at s. */
  predicate Nearby(v: View, s: nat, y: nat)
    requires v.hs.shift < 8 && v.w >= MIN_LOOKAHEAD
  {
    y in v.marks && v.base < y < v.base + s && v.base + s - y < MaxDist(v.w) && SameHash(v, y, v.base + s)
  }

  /** Everything in reach was seen, or as many places as the budget allows and all of them newer. */
  ghost predicate Covered(v: View, s: nat, seen: set<nat>, budget: nat)
    requires v.hs.shift < 8 && v.w >= MIN_LOOKAHEAD
  {
    && |seen| <= budget
    && forall y :: Nearby(v, s, y) ==> y in seen || (|seen| == budget && forall z :: z in seen ==> y < z)
  }

  /** The search may end early at a place that repeats for nice octets. */
  predicate Stopped(v: View, s: nat, seen: set<nat>, nice: nat) { exists z :: z in seen && Repeats(v, z, s, nice) }

  lemma NiceStops(window: seq<bv8>, v: View, s: nat, lookahead: nat, seen: set<nat>, cur: nat, n: nat, nice: nat)
    requires WindowOk(window, v, s + lookahead) && cur < s && Agree(window, s, s - cur, n) && nice <= n
    requires nice <= lookahead && v.base + cur in seen
    ensures Stopped(v, s, seen, nice)
  {
    hide WindowOk, Repeats;
    AgreeLess(window, s, s - cur, n, nice);
    AgreeRepeats(window, v, s, lookahead, cur, nice);
  }

  /** max_chain_length, or a quarter of it after a good match; counted down before it is tested, at 32 bits. */
  function Budget(maxChain: nat, goodMatch: nat, prevLength: nat): nat {
    var chain := if prevLength >= goodMatch then maxChain / 4 else maxChain;
    if chain == 0 then 0x1_0000_0000 else chain
  }

  function Nice(niceMatch: nat, lookahead: nat): nat { if niceMatch > lookahead then lookahead else niceMatch }

  /** What is in reach and newer than cur has been seen. */
  ghost predicate SeenTo(v: View, s: nat, seen: set<nat>, cur: nat)
    requires v.hs.shift < 8 && v.w >= MIN_LOOKAHEAD
  {
    forall y :: Nearby(v, s, y) && v.base + cur < y ==> y in seen
  }

  predicate AllAfter(seen: set<nat>, x: int) { forall z :: z in seen ==> x < z }

  lemma AgreeRepeats(window: seq<bv8>, v: View, s: nat, lookahead: nat, cur: nat, k: nat)
    requires WindowOk(window, v, s + lookahead) && cur < s && k <= lookahead
    ensures Repeats(v, v.base + cur, s, k) <==> Agree(window, s, s - cur, k)
  {
    var st, b := v.stream, v.base;
    if Repeats(v, b + cur, s, k) {
      forall j | s <= j < s + k ensures window[j] == window[j - (s - cur)] {
        assert st[b + j] == st[b + j - (s - cur)];
      }
    }
    if Agree(window, s, s - cur, k) {
      forall j | b + s <= j < b + s + k ensures st[j] == st[j - (s - cur)] {
        assert window[j - b] == window[j - b - (s - cur)];
      }
    }
  }

  /** A place that repeats further than best passes the quick tests, and one that passes them is measured out. */
  lemma Measured(window: seq<bv8>, v: View, s: nat, lookahead: nat, cur: nat, best: nat, tested: bool, n: nat)
    requires WindowOk(window, v, s + lookahead) && cur < s && s + MAX_MATCH < |window| && 2 <= best <= MAX_MATCH
    requires tested == (window[cur + best] == window[s + best] && window[cur + best - 1] == window[s + best - 1]
                        && window[cur] == window[s] && window[cur + 1] == window[s + 1])
    requires tested ==> n <= MAX_MATCH && (n == MAX_MATCH || window[s + n] != window[cur + n])
    requires !tested ==> n == 0
    ensures LongestAt(v, s, lookahead, v.base + cur, if n > best then n else best)
  {
    hide Repeats, WindowOk;
    var len2, z := if n > best then n else best, v.base + cur;
    forall k: nat | k <= lookahead && k <= MAX_MATCH && Repeats(v, z, s, k) ensures k <= len2 {
      AgreeRepeats(window, v, s, lookahead, cur, k);
      if k > best {
        AgreeAt(window, s, cur, k, best);
        AgreeAt(window, s, cur, k, best - 1);
        AgreeAt(window, s, cur, k, 0);
        AgreeAt(window, s, cur, k, 1);
        if n < k {
          AgreeAt(window, s, cur, k, n);
        }
      }
    }
  }

  lemma AgreeAt(window: seq<bv8>, s: nat, cur: nat, k: nat, i: nat)
    requires cur < s && Agree(window, s, s - cur, k) && i < k
    ensures window[s + i] == window[cur + i]
  {
    assert window[s + i] == window[s + i - (s - cur)];
  }

  /** The quick tests, and the comparison if they pass: how far the string at cur repeats, if further than best. */
  method TryMatch(window: seq<bv8>, s: nat, lookahead: nat, cur: nat, best: nat, ghost v: View) returns (n: nat)
    requires v.hs.shift < 8 && v.w >= MIN_LOOKAHEAD && WindowOk(window, v, s + lookahead) && HashingOk(v.hs)
    requires s + MIN_LOOKAHEAD <= 2 * v.w && MIN_MATCH - 1 <= best <= MAX_MATCH && Candidate(v, s, lookahead, cur)
    ensures n <= MAX_MATCH && (n > best && lookahead >= MIN_MATCH ==> Agree(window, s, s - cur, n))
    ensures LongestAt(v, s, lookahead, v.base + cur, if n > best then n else best)
  {
    hide Agree, AgreeFrom3, Candidate, WindowOk, HashAt, HashingOk, LongestAt, SameHash;
    CandidateIs(v, s, lookahead, cur);
    WindowIs(window, v, s + lookahead);
    n := 0;
    var tested := window[cur + best] == window[s + best] && window[cur + best - 1] == window[s + best - 1]
                  && window[cur] == window[s] && window[cur + 1] == window[s + 1];
    if tested {
      n := MatchLength(window, s, cur);
      if lookahead >= MIN_MATCH {
        WholeAgree(window, v, s + lookahead, s, cur, n);
      }
    }
    Measured(window, v, s, lookahead, cur, best, tested, n);
  }

  /** longest_match: a match longer than prevLength and where it starts, or no more than prevLength. */
  method LongestMatch(dict: Dict, window: seq<bv8>, s: nat, lookahead: nat, cur0: nat, prevLength: nat,
                      w: nat, maxChain: nat, goodMatch: nat, niceMatch0: nat, ghost v: View)
    returns (len: nat, start: nat, ghost seen: set<nat>)
    requires ChainsOk(dict, v) && v.hs.shift < 8 && v.w == w >= MIN_LOOKAHEAD && WindowOk(window, v, s + lookahead)
    requires s + MIN_LOOKAHEAD <= 2 * w && v.last <= v.base + s && MIN_MATCH - 1 <= prevLength <= MAX_MATCH
    requires Candidate(v, s, lookahead, cur0) && NewestIs(v, v.base + s, cur0)
    ensures len <= lookahead && len <= MAX_MATCH && (len == lookahead || len >= prevLength)
    ensures lookahead >= MIN_MATCH && len > prevLength ==>
      start < s && s - start <= MaxDist(w) && Agree(window, s, s - start, len)
    ensures v.base + cur0 in seen && Beats(v, s, lookahead, seen, len)
    ensures len > prevLength ==> Nearest(v, s, seen, start, len)
    ensures lookahead >= MIN_MATCH ==>
      || Stopped(v, s, seen, Nice(niceMatch0, lookahead))
      || Covered(v, s, seen, Budget(maxChain, goodMatch, prevLength))
  {
    hide Agree, AgreeFrom3, ChainsOk, Candidate, WindowOk, HashAt, HashingOk, Beats, Nearest, Covered, SeenTo, NewestIs,
         NewestBut, Repeats, LongestAt, AllAfter, SameHash, Stopped;
    SizeOf(window, dict, v, s + lookahead);
    CandidateIs(v, s, lookahead, cur0);
    var best: nat, cur: nat, chain: nat := prevLength, cur0, maxChain;
    start := 0;
    if prevLength >= goodMatch {
      chain := chain / 4;
    }
    var nice := if niceMatch0 > lookahead then lookahead else niceMatch0;
    var limit := if s > MaxDist(w) then s - MaxDist(w) else 0;
    ghost var budget := Budget(maxChain, goodMatch, prevLength);
    seen := {};
    SeenNone(v, s, lookahead, cur0, prevLength);
    while true
      invariant prevLength <= best <= MAX_MATCH && cur < s && Candidate(v, s, lookahead, cur)
      invariant best > prevLength && lookahead >= MIN_MATCH ==>
        start < s && s - start <= MaxDist(w) && Agree(window, s, s - start, best)
      invariant |seen| + Left(chain) == budget
      invariant if seen == {} then cur == cur0 else chain != 0 && v.base + cur0 in seen
      invariant AllAfter(seen, v.base + cur) && Beats(v, s, lookahead, seen, best)
      invariant lookahead >= MIN_MATCH ==> SeenTo(v, s, seen, cur)
      invariant best > prevLength ==> best < nice && v.base + start in seen && Nearest(v, s, seen, start, best)
      decreases cur
    {
      CandidateIs(v, s, lookahead, cur);
      var n := TryMatch(window, s, lookahead, cur, best, v);
      SeeOne(v, s, lookahead, seen, cur, prevLength, best, n, start);
      SeenWith(v, s, seen, cur);
      seen := seen + {v.base + cur};
      if n > best {
        start, best := cur, n;
        if n >= nice {
          if lookahead >= MIN_MATCH {
            NiceStops(window, v, s, lookahead, seen, cur, n, nice);
          }
          break;
        }
      }
      NextCandidate(dict, v, s, lookahead, cur);
      var next := dict.prev[cur % w];
      SeenOn(v, s, seen, cur, next, budget);
      if next <= limit {
        break;
      }
      cur := next;
      chain := if chain == 0 then 0xffff_ffff else chain - 1;
      if chain == 0 {
        break;
      }
    }
    len := if best <= lookahead then best else lookahead;
    Cut(v, s, lookahead, seen, best, len);
    if lookahead >= MIN_MATCH && len > prevLength {
      AgreeLess(window, s, s - start, best, len);
    }
  }

  function Left(chain: nat): nat { if chain == 0 then 0x1_0000_0000 else chain }

  lemma SeenNone(v: View, s: nat, lookahead: nat, cur: nat, len: nat)
    requires v.hs.shift < 8 && v.w >= MIN_LOOKAHEAD && NewestIs(v, v.base + s, cur)
    ensures AllAfter({}, v.base + cur) && Beats(v, s, lookahead, {}, len) && SeenTo(v, s, {}, cur)
  {
    hide SameHash;
  }

  lemma SeenWith(v: View, s: nat, seen: set<nat>, cur: nat)
    requires v.hs.shift < 8 && v.w >= MIN_LOOKAHEAD && AllAfter(seen, v.base + cur)
    ensures AllAfter(seen + {v.base + cur}, v.base + cur - 1)
    ensures SeenTo(v, s, seen, cur) ==> SeenTo(v, s, seen + {v.base + cur}, cur)
  {
    hide Nearby;
  }

  /** One more place seen: what is best stays best, and the nearest. */
  lemma SeeOne(v: View, s: nat, lookahead: nat, seen: set<nat>, cur: nat, prevLength: nat, best: nat, n: nat,
               start: nat)
    requires AllAfter(seen, v.base + cur) && Beats(v, s, lookahead, seen, best) && prevLength <= best
    requires n <= MAX_MATCH && LongestAt(v, s, lookahead, v.base + cur, if n > best then n else best)
    requires best > prevLength ==> best < lookahead && v.base + start in seen && Nearest(v, s, seen, start, best)
    ensures |seen + {v.base + cur}| == |seen| + 1
    ensures Beats(v, s, lookahead, seen + {v.base + cur}, if n > best then n else best)
    ensures n <= best && best > prevLength ==> Nearest(v, s, seen + {v.base + cur}, start, best)
    ensures var len := if n <= lookahead then n else lookahead;
      n > best && len > prevLength ==> Nearest(v, s, seen + {v.base + cur}, cur, len)
  {
    hide Repeats;
  }

  /** Going on from cur to next passes over nothing in reach. */
  lemma SeenOn(v: View, s: nat, seen: set<nat>, cur: nat, next: nat, budget: nat)
    requires v.hs.shift < 8 && v.w >= MIN_LOOKAHEAD && v.base + cur in seen && |seen| <= budget
    requires AllAfter(seen, v.base + cur - 1)
    ensures next < cur ==> AllAfter(seen, v.base + next)
    ensures SeenTo(v, s, seen, cur) && NewestBut(v, s, cur, next) ==>
      && SeenTo(v, s, seen, next)
      && (|seen| == budget || next <= (if s > MaxDist(v.w) then s - MaxDist(v.w) else 0) ==>
            Covered(v, s, seen, budget))
  {
    hide SameHash;
  }

  lemma Cut(v: View, s: nat, lookahead: nat, seen: set<nat>, best: nat, len: nat)
    requires Beats(v, s, lookahead, seen, best) && len == if best <= lookahead then best else lookahead
    ensures Beats(v, s, lookahead, seen, len)
  {
    hide Repeats;
  }

  lemma WindowIs(window: seq<bv8>, v: View, n: nat)
    requires WindowOk(window, v, n)
    ensures |window| == 2 * v.w
  {
  }

  lemma SizeOf(window: seq<bv8>, d: Dict, v: View, n: nat)
    requires WindowOk(window, v, n) && ChainsOk(d, v)
    ensures |window| == 2 * v.w && n <= 2 * v.w && |d.prev| == v.w && HashingOk(v.hs)
  {
  }

  lemma CandidateIs(v: View, s: nat, lookahead: nat, cur: nat)
    requires v.hs.shift < 8 && v.w >= MIN_LOOKAHEAD && Candidate(v, s, lookahead, cur)
    ensures 0 < cur < s && s - cur <= MaxDist(v.w)
    ensures lookahead >= MIN_MATCH ==> SameHash(v, v.base + cur, v.base + s)
  {
  }

  lemma AgreeLess(window: seq<bv8>, s: nat, d: nat, len: nat, less: nat)
    requires Agree(window, s, d, len) && less <= len
    ensures Agree(window, s, d, less)
  {
  }
}
