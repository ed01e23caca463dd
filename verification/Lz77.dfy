/** deflate_fast and deflate_slow: the window, the input and the tokens tallied. */
module Lz77 {
  import opened Lz77Spec
  import opened Lz77Chains
  import opened Lz77Match

  const TOO_FAR: nat := 4096

  // The window.

  lemma SlideWindow(window: seq<bv8>, v: View, n: nat)
    requires WindowOk(window, v, n) && n >= v.w
    ensures WindowOk(window[v.w..] + window[v.w..], Slid(v), n - v.w)
  {
  }

  /** n octets of input go behind the first e of the window. */
  function Filled(window: seq<bv8>, e: nat, more: seq<bv8>): seq<bv8>
    requires e + |more| <= |window|
  {
    window[..e] + more + window[e + |more|..]
  }

  lemma FilledOk(window: seq<bv8>, v: View, e: nat, more: seq<bv8>)
    requires WindowOk(window, v, e) && e + |more| <= |window|
    ensures WindowOk(Filled(window, e, more), Longer(v, more), e + |more|)
  {
  }

  lemma AgreeMatches(window: seq<bv8>, v: View, n: nat, s: nat, d: nat, len: nat)
    requires WindowOk(window, v, n) && Agree(window, s, d, len) && s + len <= n
    ensures Matches(v.stream, d, v.base + s, len)
  {
    var st := v.stream;
    forall j | v.base + s <= j < v.base + s + len ensures st[j] == st[j - d] {
      assert window[j - v.base] == window[j - v.base - d];
    }
  }

  /** A hash begun anew at s. */
  lemma BegunAnew(hs: Hashing, window: seq<bv8>, v: View, n: nat, s: nat)
    requires hs.shift < 8 && WindowOk(window, v, n) && s + 1 < |window| && s <= n
    ensures Ready(hs, Update(hs, window[s] as bv16, window[s + 1]), v.stream, v.base + s)
  {
  }

  predicate TokensOk(tokens: seq<Token>, maxDist: nat) {
    Grounded(tokens) && forall i :: 0 <= i < |tokens| ==> TokenOk(tokens[i], maxDist)
  }

  /** What was inserted stays so, and so now is every string from a up to b of which all octets are there. */
  predicate Entered(v: View, v2: View, a: nat, b: nat) {
    v.marks <= v2.marks && forall x :: a <= x < b && x + 2 < |v2.stream| ==> x in v2.marks
  }

  class Matcher {
    const w: nat
    const hs: Hashing
    const maxChain: nat
    const goodMatch: nat
    const niceMatch: nat
    const maxLazy: nat
    const huffmanOnly: bool
    const filtered: bool

    var window: seq<bv8>
    var dict: Dict
    var insH: bv16
    var strstart: nat
    var lookahead: nat
    var matchStart: int
    var matchLength: nat
    var prevLength: nat
    var matchAvailable: bool
    var input: seq<bv8>
    var tokens: seq<Token>
    ghost var view: View

    /** The window holds n octets, and the strings before position p are those that may have been inserted. */
    ghost predicate Table(p: nat, n: nat)
      reads this`window, this`dict, this`insH, this`view
    {
      && w >= 512 && HashingOk(hs) && hs.shift < 8 && view.w == w && view.hs == hs
      && WindowOk(window, view, n)
      && ChainsOk(dict, view)
      && view.last < view.base + p
      && Ready(hs, insH, view.stream, view.base + p)
    }

    ghost predicate Core()
      reads this
    {
      Table(strstart, strstart + lookahead) && TokensOk(tokens, MaxDist(w))
    }

    /** Everything read so far and still to be read. */
    ghost function Whole(): seq<bv8>
      reads this
    {
      view.stream + input
    }

    /** The position in the whole input. */
    ghost function At(): nat
      reads this
    {
      view.base + strstart
    }

    method Slide()
      requires Core() && strstart >= w + MaxDist(w)
      modifies this`window, this`dict, this`strstart, this`matchStart, this`view
      ensures Core() && At() == old(At()) && view.stream == old(view.stream)
      ensures view.marks == old(view.marks)
      ensures view.base == old(view.base) + w && matchStart == old(matchStart) - w && strstart == old(strstart) - w <= w
    {
      hide WindowOk, ChainsOk, HashingOk, Ready, TokensOk, Lz77Chains.Slide;
      SlideWindow(window, view, strstart + lookahead);
      SlideOk(dict, view);
      WindowSize(window, view, strstart + lookahead);
      window := window[w..] + window[w..];
      dict := Lz77Chains.Slide(dict, w);
      matchStart := matchStart - w;
      strstart := strstart - w;
      view := Slid(view);
    }

    /** read_buf: as much input as there is and fits. */
    method ReadBuf(more: nat)
      requires Core() && strstart + lookahead + more <= 2 * w && more >= 2 && input != []
      modifies this`window, this`lookahead, this`input, this`insH, this`view
      ensures Core() && Whole() == old(Whole()) && view.base == old(view.base) && old(view.stream) <= view.stream
      ensures |input| < old(|input|) && lookahead >= old(lookahead) && view.marks == old(view.marks)
      ensures lookahead + |input| == old(lookahead + |input|)
      ensures input == [] || lookahead == old(lookahead) + more
    {
      hide WindowOk, ChainsOk, HashingOk, Ready, TokensOk, Filled;
      var n := if |input| < more then |input| else more;
      var got, e := input[..n], strstart + lookahead;
      ReadOk(hs, insH, window, dict, view, strstart, lookahead, got);
      var next := Filled(window, e, got);
      var hash := insH;
      if lookahead + n >= MIN_MATCH {
        hash := Update(hs, next[strstart] as bv16, next[strstart + 1]);
      }
      assert view.stream + got + input[n..] == view.stream + input;
      window, insH, input, lookahead, view := next, hash, input[n..], lookahead + n, Longer(view, got);
    }

    /** fill_window: at least MIN_LOOKAHEAD octets ahead, or all there are. */
    method FillWindow()
      requires Core() && lookahead < MIN_LOOKAHEAD
      modifies this`window, this`dict, this`strstart, this`matchStart, this`lookahead, this`input, this`insH, this`view
      ensures Core() && At() == old(At()) && Whole() == old(Whole()) && old(view.stream) <= view.stream
      ensures view.base + matchStart == old(view.base + matchStart) && view.marks == old(view.marks)
      ensures strstart + MIN_LOOKAHEAD <= 2 * w
      ensures lookahead >= MIN_LOOKAHEAD || input == []
      ensures lookahead >= old(lookahead) && lookahead + |input| == old(lookahead + |input|)
      ensures strstart == old(strstart) || strstart >= MaxDist(w)
    {
      hide WindowOk, ChainsOk, HashingOk, Ready, TokensOk;
      assert w >= 512;
      if strstart >= w + MaxDist(w) {
        Slide();
      }
      while lookahead < MIN_LOOKAHEAD && input != []
        invariant Core() && At() == old(At()) && Whole() == old(Whole()) && old(view.stream) <= view.stream
        invariant view.base + matchStart == old(view.base + matchStart) && view.marks == old(view.marks)
        invariant strstart < w + MaxDist(w) && (strstart == old(strstart) || strstart >= MaxDist(w))
        invariant lookahead >= old(lookahead) && lookahead + |input| == old(lookahead + |input|)
        decreases |input|
      {
        ReadBuf(2 * w - lookahead - strstart);
      }
    }

    // One string after the other into the chains.

    method InsertNext(p: nat, ghost n: nat) returns (hashHead: nat)
      requires Table(p, n) && p + 2 < n
      modifies this`dict, this`insH, this`view
      ensures Table(p + 1, n) && view == Inserted(old(view), p)
      ensures hashHead != 0 ==>
        hashHead < p && Marked(old(view), view.base + hashHead)
        && SameHash(old(view), view.base + hashHead, view.base + p)
      ensures NewestIs(old(view), view.base + p, hashHead)
    {
      hide WindowOk, ChainsOk, HashingOk, Ready, SameHash, NewestIs;
      InData(window, view, n, p + 2);
      var d, h, head, v := InsertString(dict, insH, window, p, w, hs, view);
      SameStream(window, view, n, p);
      dict, insH, view, hashHead := d, h, v, head;
    }

    method InsertRun(p: nat, count: nat, ghost n: nat)
      requires Table(p, n) && p + count + 2 <= n
      modifies this`dict, this`insH, this`view
      ensures Table(p + count, n) && view.base == old(view.base) && view.stream == old(view.stream)
      ensures Entered(old(view), view, view.base + p, view.base + p + count)
    {
      hide WindowOk, ChainsOk, HashingOk, Ready;
      var i := 0;
      while i < count
        invariant 0 <= i <= count && Table(p + i, n) && view.base == old(view.base) && view.stream == old(view.stream)
        invariant Entered(old(view), view, view.base + p, view.base + p + i)
      {
        var _ := InsertNext(p + i, n);
        i := i + 1;
      }
    }

    /**
     * What the search for the string at s has seen, and that nothing seen is better than what it found:
     * a longer match, or one as long and nearer.
     */
    ghost predicate Sought(v: View, s: nat, ahead: nat, before: nat, seen: set<nat>, len: nat, start: nat)
      requires v.hs.shift < 8 && v.w >= MIN_LOOKAHEAD
    {
      && Beats(v, s, ahead, seen, len) && (len > before ==> Nearest(v, s, seen, start, len))
      && (Covered(v, s, seen, Budget(maxChain, goodMatch, before)) || Stopped(v, s, seen, Nice(niceMatch, ahead)))
    }

    /** The longest match for the string at strstart, just inserted, whose chain began at hashHead. */
    method Search(hashHead: nat) returns (len: nat, start: nat, ghost seen: set<nat>)
      requires Table(strstart + 1, strstart + lookahead) && strstart + MIN_LOOKAHEAD <= 2 * w && lookahead >= MIN_MATCH
      requires 0 < hashHead < strstart && strstart - hashHead <= MaxDist(w)
      requires Marked(view, view.base + hashHead) && SameHash(view, view.base + hashHead, view.base + strstart)
      requires MIN_MATCH - 1 <= prevLength <= MAX_MATCH && NewestIs(view, view.base + strstart, hashHead)
      ensures MIN_MATCH - 1 <= len <= lookahead && len <= MAX_MATCH
      ensures len > prevLength ==> Found(view, w, strstart, start, len)
      ensures Sought(view, strstart, lookahead, prevLength, seen, len, start)
    {
      hide WindowOk, ChainsOk, HashingOk, Ready, SameHash, NewestIs, Beats, Nearest, Covered, Stopped;
      len, start, seen := LongestMatch(dict, window, strstart, lookahead, hashHead, prevLength,
                                       w, maxChain, goodMatch, niceMatch, view);
      if len > prevLength {
        AgreeMatches(window, view, strstart + lookahead, strstart, strstart - start, len);
      }
    }

    /** The string at strstart goes into its chain; the longest match for it is looked for. */
    method InsertAndSearch(look: bool, ghost n: nat)
      returns (found: bool, len: nat, start: nat, ghost seen: set<nat>)
      requires Table(strstart, n) && n == strstart + lookahead && strstart + MIN_LOOKAHEAD <= 2 * w && lookahead > 0
      requires MIN_MATCH - 1 <= prevLength <= MAX_MATCH
      modifies this`dict, this`insH, this`view
      ensures view.base == old(view.base) && view.stream == old(view.stream)
      ensures Table(strstart + 1, n) && Entered(old(view), view, At(), At() + 1)
      ensures found ==> MIN_MATCH - 1 <= len <= lookahead && len <= MAX_MATCH
      ensures found && len > prevLength ==> Found(view, w, strstart, start, len)
      ensures found ==> look && !huffmanOnly
      ensures !found ==> seen == {} && len == 0
      ensures look && !huffmanOnly ==> Sought(old(view), strstart, lookahead, prevLength, seen, len, start)
    {
      hide WindowOk, ChainsOk, HashingOk, Ready, SameHash, Found, NewestIs, Sought;
      found, len, start, seen := false, 0, 0, {};
      if lookahead >= MIN_MATCH {
        var hashHead := InsertNext(strstart, n);
        if hashHead != 0 && look && strstart - hashHead <= MaxDist(w) && !huffmanOnly {
          SameAfter(old(view), strstart, hashHead);
          NewestAfter(old(view), strstart, hashHead);
          found := true;
          len, start, seen := Search(hashHead);
          SoughtSame(old(view), strstart, lookahead, prevLength, seen, len, start);
        } else if hashHead == 0 || strstart - hashHead > MaxDist(w) {
          NoneNearby(old(view), strstart, hashHead, prevLength);
        }
      } else {
        WindowEnd(window, view, n);
        TooNear(old(view), window, strstart, lookahead, prevLength);
        TooShort2(hs, insH, window, view, strstart, lookahead);
      }
    }

    lemma SoughtSame(v: View, s: nat, ahead: nat, before: nat, seen: set<nat>, len: nat, start: nat)
      requires v.hs.shift < 8 && v.w >= MIN_LOOKAHEAD && Sought(Inserted(v, s), s, ahead, before, seen, len, start)
      ensures Sought(v, s, ahead, before, seen, len, start)
    {
      hide HashAt, Matches;
      var v2, budget := Inserted(v, s), Budget(maxChain, goodMatch, before);
      assert forall y :: Nearby(v, s, y) ==> Nearby(v2, s, y);
      assert forall z, k: nat :: Repeats(v, z, s, k) == Repeats(v2, z, s, k);
    }

    lemma NoneNearby(v: View, s: nat, head: nat, before: nat)
      requires v.hs.shift < 8 && v.w >= MIN_LOOKAHEAD && NewestIs(v, v.base + s, head)
      requires head == 0 || s - head > MaxDist(v.w)
      ensures Sought(v, s, lookahead, before, {}, 0, 0)
    {
      hide SameHash;
    }

    lemma TooNear(v: View, window: seq<bv8>, s: nat, ahead: nat, before: nat)
      requires v.hs.shift < 8 && v.w >= MIN_LOOKAHEAD && WindowOk(window, v, s + ahead) && ahead < MIN_MATCH
      ensures Sought(v, s, ahead, before, {}, 0, 0)
    {
      hide HashAt;
    }

    // deflate_fast.

    /** The token for the string at s: the longest match seen and the nearest such, or a literal if there is none. */
    ghost predicate Greedy(v: View, s: nat, ahead: nat, seen: set<nat>, t: Token)
      requires v.hs.shift < 8 && v.w >= MIN_LOOKAHEAD
    {
      match t
      case Literal(_) =>
        huffmanOnly || Sought(v, s, ahead, MIN_MATCH - 1, seen, MIN_MATCH - 1, 0)
      case Copy(d, len) =>
        !huffmanOnly && d <= s && len >= MIN_MATCH && Sought(v, s, ahead, MIN_MATCH - 1, seen, len, s - d)
    }

    ghost predicate FastOk()
      reads this
    {
      && Core() && At() <= |view.stream| && Expand(tokens) == view.stream[..At()]
      && matchLength < MIN_MATCH && prevLength == MIN_MATCH - 1
    }

    /** One literal, or one match, of deflate_fast. */
    method FastStep() returns (ghost seen: set<nat>, ghost t: Token)
      requires FastOk() && lookahead > 0 && strstart + MIN_LOOKAHEAD <= 2 * w
      modifies this`dict, this`insH, this`view, this`strstart, this`lookahead, this`matchStart, this`matchLength,
               this`tokens
      ensures FastOk() && view.base == old(view.base) && view.stream == old(view.stream)
      ensures strstart + lookahead == old(strstart + lookahead) && lookahead < old(lookahead)
      ensures tokens == old(tokens) + [t] && Greedy(old(view), old(strstart), old(lookahead), seen, t)
      ensures Entered(old(view), view, old(At()), old(At()) + 1)
      ensures t.Copy? && t.len <= maxLazy && lookahead >= MIN_MATCH ==> Entered(old(view), view, old(At()), At())
    {
      hide WindowOk, ChainsOk, HashingOk, Ready, TokensOk, Expand, Found, Sought;
      ghost var n := strstart + lookahead;
      var found, len, start, seen_ := InsertAndSearch(true, n);
      seen := seen_;
      if found {
        matchLength, matchStart := len, start;
      }
      if matchLength >= MIN_MATCH {
        FoundIs(view, w, strstart, matchStart, matchLength);
        t := Copy(strstart - matchStart, matchLength);
        FastMatch(n);
      } else {
        InData(window, view, n, strstart);
        t := Literal(window[strstart]);
        if !huffmanOnly {
          NoMatchSeen(old(view), strstart, lookahead, seen, len, start);
        }
        TallyOne(n);
      }
    }

    lemma NoMatchSeen(v: View, s: nat, ahead: nat, seen: set<nat>, len: nat, start: nat)
      requires v.hs.shift < 8 && v.w >= MIN_LOOKAHEAD && len < MIN_MATCH
      requires Sought(v, s, ahead, MIN_MATCH - 1, seen, len, start)
      ensures Sought(v, s, ahead, MIN_MATCH - 1, seen, MIN_MATCH - 1, 0)
    {
      hide Covered, Stopped, Repeats;
    }

    /** The match found at strstart is tallied, and its strings inserted if it is short. */
    method FastMatch(ghost n: nat)
      requires Table(strstart + 1, n) && n == strstart + lookahead && strstart + MIN_LOOKAHEAD <= 2 * w
      requires Found(view, w, strstart, matchStart, matchLength) && MIN_MATCH <= matchLength <= lookahead
      requires TokensOk(tokens, MaxDist(w)) && At() <= |view.stream| && Expand(tokens) == view.stream[..At()]
      modifies this`dict, this`insH, this`view, this`strstart, this`lookahead, this`matchLength, this`tokens
      ensures Core() && At() <= |view.stream| && Expand(tokens) == view.stream[..At()] && matchLength < MIN_MATCH
      ensures view.base == old(view.base) && view.stream == old(view.stream)
      ensures strstart + lookahead == n && lookahead < old(lookahead)
      ensures old(strstart) >= matchStart
      ensures tokens == old(tokens) + [Copy(old(strstart) - matchStart, old(matchLength))]
      ensures old(view.marks) <= view.marks
      ensures old(matchLength) <= maxLazy && lookahead >= MIN_MATCH ==> Entered(old(view), view, old(At()) + 1, At())
    {
      hide WindowOk, ChainsOk, HashingOk, Ready, TokensOk, Expand, Found;
      FoundIs(view, w, strstart, matchStart, matchLength);
      TallyMatch(tokens, view, w, strstart, matchStart, matchLength);
      tokens := tokens + [Copy(strstart - matchStart, matchLength)];
      lookahead := lookahead - matchLength;
      if matchLength <= maxLazy && lookahead >= MIN_MATCH {
        InsertRun(strstart + 1, matchLength - 1, n);
      } else {
        SkipTo(strstart + matchLength, n);
      }
      strstart := strstart + matchLength;
      matchLength := 0;
    }

    /** The octet at strstart is tallied as it is. */
    method TallyOne(ghost n: nat)
      requires Table(strstart + 1, n) && n == strstart + lookahead && lookahead > 0
      requires TokensOk(tokens, MaxDist(w)) && At() <= |view.stream| && Expand(tokens) == view.stream[..At()]
      modifies this`strstart, this`lookahead, this`tokens
      ensures Core() && At() <= |view.stream| && Expand(tokens) == view.stream[..At()]
      ensures strstart + lookahead == n && lookahead < old(lookahead)
      ensures old(strstart) < |window| && tokens == old(tokens) + [Literal(window[old(strstart)])]
    {
      hide WindowOk, ChainsOk, HashingOk, Ready, TokensOk, Expand;
      InData(window, view, n, strstart);
      TallyLiteral(tokens, view, w, strstart);
      tokens := tokens + [Literal(window[strstart])];
      lookahead := lookahead - 1;
      strstart := strstart + 1;
    }

    /** The strings before position p are left out of the chains: the hash is begun anew. */
    method SkipTo(p: nat, ghost n: nat)
      requires Table(strstart + 1, n) && strstart < p <= n && p + 1 < 2 * w
      modifies this`insH
      ensures Table(p, n)
    {
      hide ChainsOk, HashingOk, Update, Hash3;
      WindowSize(window, view, n);
      insH := Update(hs, window[p] as bv16, window[p + 1]);
      BegunAnew(hs, window, view, n, p);
    }

    // deflate_slow.

    /** Where the tokens have got to: one octet behind while a decision is pending. */
    ghost function Tallied(): int
      reads this
    {
      At() - if matchAvailable then 1 else 0
    }

    /** The match of the octet before strstart that waits for a better one. */
    ghost predicate Pending()
      reads this
    {
      && MIN_MATCH - 1 <= matchLength <= MAX_MATCH && w >= MIN_LOOKAHEAD
      && (!matchAvailable ==> matchLength < MIN_MATCH)
      && (matchAvailable ==> strstart >= 1)
      && (matchLength >= MIN_MATCH ==>
            strstart >= 1 && Found(view, w, strstart - 1, matchStart, matchLength) && matchLength <= lookahead + 1)
      && WorthIt(strstart - 1, matchStart, matchLength)
    }

    /** A match of three octets is not worth it further than 4096 back, nor one of less than six in filtered data. */
    predicate WorthIt(s: int, start: int, len: nat) {
      && (len == MIN_MATCH ==> s - start <= TOO_FAR)
      && (filtered ==> len < MIN_MATCH || len > 5)
    }

    /** Nothing seen is better than len, but for what is not worth it. */
    predicate Unbeaten(v: View, s: nat, ahead: nat, seen: set<nat>, len: nat) {
      forall z, k: nat :: z in seen && k <= ahead && k <= MAX_MATCH && Repeats(v, z, s, k) && k > len ==>
        (filtered && k <= 5) || (k == MIN_MATCH && v.base + s - z > TOO_FAR)
    }

    /** The search for the string at s, if there was one, against a match of len octets. */
    ghost predicate Lazy(v: View, s: nat, ahead: nat, before: nat, seen: set<nat>, len: nat)
      requires v.hs.shift < 8 && v.w >= MIN_LOOKAHEAD
    {
      before < maxLazy && !huffmanOnly ==>
        && Unbeaten(v, s, ahead, seen, len)
        && (Covered(v, s, seen, Budget(maxChain, goodMatch, before)) || Stopped(v, s, seen, Nice(niceMatch, ahead)))
    }

    ghost predicate SlowOk()
      reads this
    {
      Core() && Pending() && 0 <= Tallied() <= |view.stream| && Expand(tokens) == view.stream[..Tallied()]
    }

    /**
     * One step of deflate_slow: the match that waits is tallied unless a longer one is found now;
     * otherwise the octet that waits is tallied, and what is found now waits.
     */
    method SlowStep() returns (ghost seen: set<nat>)
      requires SlowOk() && lookahead > 0 && strstart + MIN_LOOKAHEAD <= 2 * w
      modifies this`dict, this`insH, this`view, this`strstart, this`lookahead, this`matchStart, this`matchLength,
               this`prevLength, this`matchAvailable, this`tokens
      ensures SlowOk() && view.base == old(view.base) && view.stream == old(view.stream)
      ensures strstart + lookahead == old(strstart + lookahead) && lookahead < old(lookahead)
      ensures !matchAvailable ==>
        && old(matchLength) >= MIN_MATCH && old(strstart - 1 - matchStart) >= 0
        && tokens == old(tokens) + [Copy(old(strstart - 1 - matchStart), old(matchLength))]
        && Lazy(old(view), old(strstart), old(lookahead), old(matchLength), seen, old(matchLength))
      ensures matchAvailable ==>
        && (old(matchLength) >= MIN_MATCH ==> matchLength > old(matchLength))
        && tokens == old(tokens) + (if old(matchAvailable) then [Literal(view.stream[old(At()) - 1])] else [])
        && Lazy(old(view), old(strstart), old(lookahead), old(matchLength), seen, matchLength)
      ensures Entered(old(view), view, old(At()), At())
    {
      hide WindowOk, ChainsOk, HashingOk, Ready, TokensOk, Expand, Found, Sought, Lazy, WorthIt;
      ghost var n := strstart + lookahead;
      prevLength := matchLength;
      var prevMatch := matchStart;
      var found, len, start, seen_ := InsertAndSearch(prevLength < maxLazy, n);
      seen := seen_;
      if prevLength >= MIN_MATCH {
        FoundSame(old(view), view, w, strstart - 1, prevMatch, prevLength);
        FoundIs(view, w, strstart - 1, prevMatch, prevLength);
      }
      Judge(found, len, start);
      LazyIs(old(view), strstart, lookahead, prevLength, seen, found, len, start, matchLength, matchStart);
      if prevLength >= MIN_MATCH && matchLength <= prevLength {
        SlowMatch(prevMatch, n);
      } else {
        SlowWait(n);
      }
    }

    lemma LazyIs(v: View, s: nat, ahead: nat, before: nat, seen: set<nat>, found: bool, len: nat, start: nat,
                 judged: nat, judgedStart: int)
      requires v.hs.shift < 8 && v.w >= MIN_LOOKAHEAD && before >= MIN_MATCH - 1
      requires before < maxLazy && !huffmanOnly ==> Sought(v, s, ahead, before, seen, len, start)
      requires !found ==> seen == {}
      requires found && len > before ==> judgedStart == start
      requires found ==> judged == len || (judged == MIN_MATCH - 1 && !WorthIt(s, judgedStart, len))
      ensures judged <= before && before >= MIN_MATCH ==> Lazy(v, s, ahead, before, seen, before)
      ensures judged > before || before == MIN_MATCH - 1 ==> Lazy(v, s, ahead, before, seen, judged)
    {
      hide Covered, Stopped, Repeats;
    }

    /** Short matches that are far away do not count. */
    method Judge(found: bool, len: nat, start: nat)
      requires w >= MIN_LOOKAHEAD && prevLength >= MIN_MATCH - 1
      requires found ==> MIN_MATCH - 1 <= len <= lookahead && len <= MAX_MATCH
      requires found && len > prevLength ==> Found(view, w, strstart, start, len)
      modifies this`matchLength, this`matchStart
      ensures MIN_MATCH - 1 <= matchLength <= MAX_MATCH
      ensures matchLength >= MIN_MATCH && matchLength > prevLength ==>
        Found(view, w, strstart, matchStart, matchLength) && matchLength <= lookahead
      ensures matchLength == MIN_MATCH - 1 || (found && matchLength == len)
      ensures matchLength >= MIN_MATCH ==> WorthIt(strstart, matchStart, matchLength)
      ensures found && matchLength != len ==> !WorthIt(strstart, matchStart, len)
      ensures matchStart == if found && len > prevLength then start else old(matchStart)
    {
      hide Found;
      matchLength := MIN_MATCH - 1;
      if found {
        matchLength := len;
        if len > prevLength {
          matchStart := start;
        }
        if matchLength <= 5 && (filtered || (matchLength == MIN_MATCH && strstart - matchStart > TOO_FAR)) {
          matchLength := MIN_MATCH - 1;
        }
      }
    }

    /** The previous match was not bettered: it is tallied. */
    method SlowMatch(prevMatch: int, ghost n: nat)
      requires Table(strstart + 1, n) && n == strstart + lookahead && strstart >= 1 && matchAvailable
      requires MIN_MATCH <= prevLength <= lookahead + 1 && Found(view, w, strstart - 1, prevMatch, prevLength)
      requires TokensOk(tokens, MaxDist(w)) && Expand(tokens) == view.stream[..At() - 1]
      modifies this`dict, this`insH, this`view, this`strstart, this`lookahead, this`matchLength, this`prevLength,
               this`matchAvailable, this`tokens
      ensures SlowOk() && view.base == old(view.base) && view.stream == old(view.stream)
      ensures strstart + lookahead == n && lookahead < old(lookahead) && !matchAvailable
      ensures old(strstart) - 1 - prevMatch >= 0
      ensures tokens == old(tokens) + [Copy(old(strstart) - 1 - prevMatch, old(prevLength))]
      ensures Entered(old(view), view, old(At()) + 1, At())
    {
      hide WindowOk, ChainsOk, HashingOk, Ready, TokensOk, Expand, Found;
      var maxInsert := strstart + lookahead - MIN_MATCH;
      FoundIs(view, w, strstart - 1, prevMatch, prevLength);
      TallyMatch(tokens, view, w, strstart - 1, prevMatch, prevLength);
      tokens := tokens + [Copy(strstart - 1 - prevMatch, prevLength)];
      InsertUpTo(strstart + 1, prevLength - 2, maxInsert, n);
      lookahead := lookahead - (prevLength - 1);
      strstart := strstart + prevLength - 1;
      matchAvailable := false;
      matchLength := MIN_MATCH - 1;
      prevLength := 0;
    }

    /** count strings from p on, as far as they lie before the end of the data. */
    method InsertUpTo(p: nat, count: nat, maxInsert: int, ghost n: nat)
      requires Table(p, n) && maxInsert == n - MIN_MATCH && p + count <= n
      modifies this`dict, this`insH, this`view
      ensures Table(p + count, n) && view.base == old(view.base) && view.stream == old(view.stream)
      ensures Entered(old(view), view, view.base + p, view.base + p + count)
    {
      hide WindowOk, ChainsOk, HashingOk, Ready;
      var i := 0;
      while i < count
        invariant 0 <= i <= count && Table(p + i, n) && view.base == old(view.base) && view.stream == old(view.stream)
        invariant Entered(old(view), view, view.base + p, view.base + p + i)
      {
        if p + i <= maxInsert {
          var _ := InsertNext(p + i, n);
        } else {
          WindowEnd(window, view, n);
          NearEnd(hs, insH, window, view, n, p + i + 1);
        }
        i := i + 1;
      }
    }

    /** The octet before strstart, if it waits, is tallied as it is; the one at strstart waits. */
    method SlowWait(ghost n: nat)
      requires Table(strstart + 1, n) && n == strstart + lookahead && lookahead > 0
      requires matchAvailable ==> strstart >= 1
      requires MIN_MATCH - 1 <= matchLength <= MAX_MATCH
      requires matchLength >= MIN_MATCH ==>
        Found(view, w, strstart, matchStart, matchLength)
        && matchLength <= lookahead
      requires matchLength >= MIN_MATCH ==> WorthIt(strstart, matchStart, matchLength)
      requires TokensOk(tokens, MaxDist(w)) && 0 <= Tallied() <= |view.stream|
               && Expand(tokens) == view.stream[..Tallied()]
      modifies this`strstart, this`lookahead, this`matchAvailable, this`tokens
      ensures SlowOk() && matchAvailable && strstart == old(strstart) + 1
      ensures strstart + lookahead == n && lookahead < old(lookahead)
      ensures tokens == old(tokens) + if old(matchAvailable) then [Literal(view.stream[old(At()) - 1])] else []
    {
      hide WindowOk, ChainsOk, HashingOk, Ready, TokensOk, Expand, Found;
      InData(window, view, n, strstart);
      if matchAvailable {
        InData(window, view, n, strstart - 1);
        TallyLiteral(tokens, view, w, strstart - 1);
        tokens := tokens + [Literal(window[strstart - 1])];
      }
      matchAvailable := true;
      strstart := strstart + 1;
      lookahead := lookahead - 1;
    }

    // Whole calls.

    constructor (bits: nat, hashing: Hashing, chain: nat, good: nat, nice: nat, lazy: nat, huffman: bool, filter: bool)
      requires 9 <= bits <= 15 && HashingOk(hashing)
      ensures FastOk() && SlowOk() && Whole() == [] && tokens == []
    {
      w := WindowSizeOf(bits);
      hs, maxChain, goodMatch, niceMatch, maxLazy := hashing, chain, good, nice, lazy;
      huffmanOnly, filtered := huffman, filter;
      window := Constant<bv8>(2 * WindowSizeOf(bits), 0);
      dict := Dict(map[], Constant<nat>(WindowSizeOf(bits), 0));
      insH, strstart, lookahead, matchStart := 0, 0, 0, 0;
      matchLength, prevLength, matchAvailable := MIN_MATCH - 1, MIN_MATCH - 1, false;
      input, tokens := [], [];
      view := View(hashing, WindowSizeOf(bits), 0, [], {}, -1);
      new;
      ShiftSmall(hs);
    }

    /** More input from the caller. */
    method Feed(more: seq<bv8>)
      modifies this`input
      ensures Whole() == old(Whole()) + more
      ensures old(FastOk()) ==> FastOk()
      ensures old(SlowOk()) ==> SlowOk()
    {
      hide WindowOk, ChainsOk, HashingOk, Ready, TokensOk, Expand, Found;
      assert view.stream + (input + more) == view.stream + input + more;
      input := input + more;
    }

    /**
     * deflate_fast: without flush it stops when it would need more input to look ahead,
     * with flush it goes on to the end, and then the tokens stand for all of the input.
     */
    method DeflateFast(flush: bool)
      requires FastOk()
      modifies this
      ensures FastOk() && Whole() == old(Whole())
      ensures input == [] && lookahead < MIN_LOOKAHEAD && |Expand(tokens)| + lookahead == |Whole()|
      ensures flush ==> Expand(tokens) == Whole() && lookahead == 0
    {
      hide WindowOk, ChainsOk, HashingOk, Ready, TokensOk, Expand, Greedy;
      while true
        invariant FastOk() && Whole() == old(Whole())
        decreases lookahead + |input|
      {
        if lookahead < MIN_LOOKAHEAD {
          FastFill();
          if lookahead < MIN_LOOKAHEAD && !flush {
            Remaining();
            return;
          }
          if lookahead == 0 {
            break;
          }
        } else {
          WindowSize(window, view, strstart + lookahead);
        }
        var _, _ := FastStep();
      }
      AllDone();
    }

    method FastFill()
      requires FastOk() && lookahead < MIN_LOOKAHEAD
      modifies this`window, this`dict, this`strstart, this`matchStart, this`lookahead, this`input, this`insH, this`view
      ensures FastOk() && Whole() == old(Whole()) && view.marks == old(view.marks)
      ensures strstart + MIN_LOOKAHEAD <= 2 * w && (lookahead >= MIN_LOOKAHEAD || input == [])
      ensures lookahead + |input| == old(lookahead + |input|)
    {
      hide WindowOk, ChainsOk, HashingOk, Ready, TokensOk, Expand;
      FillWindow();
      assert old(view.stream)[..old(At())] == view.stream[..At()];
    }

    /** deflate_slow, like deflate_fast but one decision behind. */
    method DeflateSlow(flush: bool)
      requires SlowOk()
      modifies this
      ensures SlowOk() && Whole() == old(Whole())
      ensures input == [] && lookahead < MIN_LOOKAHEAD
      ensures |Expand(tokens)| + (if matchAvailable then 1 else 0) + lookahead == |Whole()|
      ensures flush ==> Expand(tokens) == Whole() && lookahead == 0 && !matchAvailable
    {
      hide WindowOk, ChainsOk, HashingOk, Ready, TokensOk, Expand, Found, Lazy;
      while true
        invariant SlowOk() && Whole() == old(Whole())
        decreases lookahead + |input|
      {
        if lookahead < MIN_LOOKAHEAD {
          SlowFill();
          if lookahead < MIN_LOOKAHEAD && !flush {
            Remaining();
            return;
          }
          if lookahead == 0 {
            break;
          }
        } else {
          WindowSize(window, view, strstart + lookahead);
        }
        var _ := SlowStep();
      }
      if matchAvailable {
        LastLiteral();
      }
      AllDone();
    }

    method SlowFill()
      requires SlowOk() && lookahead < MIN_LOOKAHEAD
      modifies this`window, this`dict, this`strstart, this`matchStart, this`lookahead, this`input, this`insH, this`view
      ensures SlowOk() && Whole() == old(Whole()) && view.marks == old(view.marks)
      ensures strstart + MIN_LOOKAHEAD <= 2 * w && (lookahead >= MIN_LOOKAHEAD || input == [])
      ensures lookahead + |input| == old(lookahead + |input|)
    {
      hide WindowOk, ChainsOk, HashingOk, Ready, TokensOk, Expand, Found;
      FillWindow();
      assert old(view.stream)[..old(Tallied())] == view.stream[..Tallied()];
      if matchLength >= MIN_MATCH {
        FoundMoved(old(view), view, w, old(strstart) - 1, strstart - 1, old(matchStart), matchStart, matchLength);
      }
    }

    /** At the end of the input the octet that waits is tallied as it is. */
    method LastLiteral()
      requires SlowOk() && matchAvailable && lookahead == 0
      modifies this`tokens, this`matchAvailable
      ensures SlowOk() && !matchAvailable
    {
      hide WindowOk, ChainsOk, HashingOk, Ready, TokensOk, Expand, Found;
      InData(window, view, strstart + lookahead, strstart - 1);
      TallyLiteral(tokens, view, w, strstart - 1);
      tokens := tokens + [Literal(window[strstart - 1])];
      matchAvailable := false;
    }

    /** All input is in the window, and what is ahead is not yet tallied. */
    lemma Remaining()
      requires Core() && input == []
      ensures At() + lookahead == |Whole()|
    {
    }

    /** With nothing ahead and nothing to come, the position is the end of the input. */
    lemma AllDone()
      requires Core() && lookahead == 0 && input == []
      ensures view.stream[..At()] == Whole() && At() == |view.stream|
    {
    }
  }

  function WindowSizeOf(bits: nat): (w: nat)
    requires 9 <= bits <= 15
    ensures 512 <= w <= 32768
  {
    [512, 1024, 2048, 4096, 8192, 16384, 32768][bits - 9]
  }

  function Constant<T>(n: nat, x: T): (r: seq<T>)
    ensures |r| == n
  {
    seq(n, _ => x)
  }

  /** A match stays one when the window slides under it and more input arrives. */
  lemma FoundMoved(v: View, v2: View, w: nat, s: nat, s2: nat, start: int, start2: int, len: nat)
    requires w >= MIN_LOOKAHEAD && Found(v, w, s, start, len) && v.stream <= v2.stream
    requires v2.base + s2 == v.base + s && s2 - start2 == s - start
    ensures Found(v2, w, s2, start2, len)
  {
  }

  lemma FoundSame(v: View, v2: View, w: nat, s: nat, start: int, len: nat)
    requires w >= MIN_LOOKAHEAD && Found(v, w, s, start, len) && v2.base == v.base && v2.stream == v.stream
    ensures Found(v2, w, s, start, len)
  {
  }

  lemma NearEnd(hs: Hashing, insH: bv16, window: seq<bv8>, v: View, n: nat, p: nat)
    requires hs.shift < 8 && WindowOk(window, v, n) && p + 2 >= n
    ensures Ready(hs, insH, v.stream, v.base + p)
  {
  }

  lemma WindowEnd(window: seq<bv8>, v: View, n: nat)
    requires WindowOk(window, v, n)
    ensures v.base + n == |v.stream|
  {
  }

  lemma FoundIs(v: View, w: nat, s: nat, start: int, len: nat)
    requires w >= MIN_LOOKAHEAD && Found(v, w, s, start, len)
    ensures start < s && len <= MAX_MATCH && v.base + s + len <= |v.stream|
  {
  }

  lemma SameAfter(v: View, p: nat, q: nat)
    requires v.hs.shift < 8 && v.last < v.base + p && Marked(v, v.base + q) && SameHash(v, v.base + q, v.base + p)
    ensures Marked(Inserted(v, p), v.base + q) && SameHash(Inserted(v, p), v.base + q, v.base + p)
  {
  }

  lemma TooShort2(hs: Hashing, insH: bv16, window: seq<bv8>, v: View, s: nat, lookahead: nat)
    requires hs.shift < 8 && WindowOk(window, v, s + lookahead) && lookahead < MIN_MATCH
    ensures Ready(hs, insH, v.stream, v.base + s + 1)
  {
  }

  lemma TallyMatch(tokens: seq<Token>, v: View, w: nat, s: nat, start: int, len: nat)
    requires w >= MIN_LOOKAHEAD && Found(v, w, s, start, len) && MIN_MATCH <= len
    requires v.base + s <= |v.stream| && Expand(tokens) == v.stream[..v.base + s] && TokensOk(tokens, MaxDist(w))
    ensures v.base + s + len <= |v.stream|
    ensures Expand(tokens + [Copy(s - start, len)]) == v.stream[..v.base + s + len]
    ensures TokensOk(tokens + [Copy(s - start, len)], MaxDist(w))
  {
    hide Grounded, Expand;
    ExpandCopy(tokens, v.stream, s - start, v.base + s, len);
    GroundedMore(tokens, Copy(s - start, len));
  }

  lemma TallyLiteral(tokens: seq<Token>, v: View, w: nat, s: nat)
    requires w >= MIN_LOOKAHEAD && v.base + s < |v.stream|
    requires Expand(tokens) == v.stream[..v.base + s] && TokensOk(tokens, MaxDist(w))
    ensures Expand(tokens + [Literal(v.stream[v.base + s])]) == v.stream[..v.base + s + 1]
    ensures TokensOk(tokens + [Literal(v.stream[v.base + s])], MaxDist(w))
  {
    hide Grounded, Expand;
    GroundedMore(tokens, Literal(v.stream[v.base + s]));
    ExpandLiteral(tokens, v.stream[v.base + s]);
  }

  /** The string at window position s matches the one at start for len octets, within the allowed distance. */
  predicate Found(v: View, w: nat, s: nat, start: int, len: nat)
    requires w >= MIN_LOOKAHEAD
  {
    && start < s && s - start <= MaxDist(w) && len <= MAX_MATCH
    && Matches(v.stream, s - start, v.base + s, len)
  }

  lemma InData(window: seq<bv8>, v: View, n: nat, i: nat)
    requires WindowOk(window, v, n) && i < n
    ensures i < |window| && v.base + i < |v.stream| && window[i] == v.stream[v.base + i]
  {
  }

  lemma SameStream(window: seq<bv8>, v: View, n: nat, p: nat)
    requires WindowOk(window, v, n)
    ensures WindowOk(window, Inserted(v, p), n)
  {
  }

  lemma ReadOk(hs: Hashing, insH: bv16, window: seq<bv8>, dict: Dict, v: View, s: nat, lookahead: nat, got: seq<bv8>)
    requires hs.shift < 8 && WindowOk(window, v, s + lookahead) && ChainsOk(dict, v)
    requires s + lookahead + |got| <= 2 * v.w
    ensures |window| == 2 * v.w && |Filled(window, s + lookahead, got)| == 2 * v.w
    ensures var next, v2 := Filled(window, s + lookahead, got), Longer(v, got);
      && WindowOk(next, v2, s + lookahead + |got|) && ChainsOk(dict, v2)
      && Ready(hs, if lookahead + |got| >= MIN_MATCH then Update(hs, next[s] as bv16, next[s + 1]) else insH,
               v2.stream, v2.base + s)
  {
    FilledOk(window, v, s + lookahead, got);
    LongerOk(dict, v, got);
    var next, v2 := Filled(window, s + lookahead, got), Longer(v, got);
    hide ChainsOk, Filled, Update, Hash3;
    if lookahead + |got| >= MIN_MATCH {
      BegunAnew(hs, next, v2, s + lookahead + |got|, s);
    } else {
      TooShort(hs, insH, next, v2, s, lookahead + |got|);
    }
  }

  lemma TooShort(hs: Hashing, insH: bv16, window: seq<bv8>, v: View, s: nat, lookahead: nat)
    requires hs.shift < 8 && WindowOk(window, v, s + lookahead) && lookahead < MIN_MATCH
    ensures Ready(hs, insH, v.stream, v.base + s)
  {
  }

  lemma WindowSize(window: seq<bv8>, v: View, n: nat)
    requires WindowOk(window, v, n)
    ensures |window| == 2 * v.w && n <= 2 * v.w
  {
  }
}
