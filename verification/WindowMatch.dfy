/** What a search in the window finds, as a statement on the input. */
module WindowMatch {
  import opened Bits
  import opened DeflateTables
  import opened HashChains
  import opened LazyMatch
  import opened SlidingWindow

  const MAX_LAZY_MATCH := 258

  /** The window `w` holds the input from `base` on: `s` bytes before the current string and `ahead` from it on. */
  ghost predicate Holds(w: seq<byte>, all: seq<byte>, base: nat, s: nat, ahead: nat) {
    && |w| == WINDOW_SIZE + MAX_MATCH && s + ahead <= WINDOW_SIZE && |all| == base + s + ahead && ahead > 0
    && (forall i: nat :: i < s + ahead ==> w[i] == all[base + i])
    && (base > 0 ==> s >= MAX_DIST)
  }

  lemma KeyHolds(w: seq<byte>, all: seq<byte>, base: nat, s: nat, ahead: nat, p: nat)
    requires Holds(w, all, base, s, ahead) && p + 2 < s + ahead
    ensures KeyAt(w, p) == KeyAt(all, base + p)
  {
    hide RollingHash.Hash3;
    assert w[p] == all[base + p] && w[p + 1] == all[base + (p + 1)] && w[p + 2] == all[base + (p + 2)];
  }

  lemma {:induction false} BetweenHolds(w: seq<byte>, all: seq<byte>, base: nat, s: nat, ahead: nat, c: nat, n: nat,
                                        h: nat)
    requires Holds(w, all, base, s, ahead) && n + 1 < s + ahead
    ensures Between(w, c, n, h) == Between(all, base + c, base + n, h)
    decreases n
  {
    hide Holds, KeyAt;
    HoldsSizes(w, all, base, s, ahead);
    if n > c + 1 {
      BetweenHolds(w, all, base, s, ahead, c, n - 1, h);
      KeyHolds(w, all, base, s, ahead, n - 1);
    }
  }

  lemma HoldsSizes(w: seq<byte>, all: seq<byte>, base: nat, s: nat, ahead: nat)
    requires Holds(w, all, base, s, ahead)
    ensures |w| == WINDOW_SIZE + MAX_MATCH && 0 < s + ahead <= WINDOW_SIZE && |all| == base + s + ahead
    ensures s < WINDOW_SIZE && ahead > 0 && (base > 0 ==> s >= MAX_DIST)
  {
  }

  /** What two strings have in common in the input is their match in the window, cut to the lookahead. */
  lemma {:induction false} RunCommon(w: seq<byte>, all: seq<byte>, base: nat, s: nat, ahead: nat, c: nat, k: nat)
    requires Holds(w, all, base, s, ahead) && c < s && k <= MAX_MATCH && k <= ahead
    ensures CommonFrom(all, base + c, base + s, k) == Min(Run(w, s, c, k), ahead)
    decreases MAX_MATCH - k
  {
    if k < MAX_MATCH && k < ahead {
      assert w[s + k] == all[base + (s + k)] && w[c + k] == all[base + (c + k)];
      if w[s + k] == w[c + k] { RunCommon(w, all, base, s, ahead, c, k + 1); }
    }
  }

  function Min(x: nat, y: nat): nat { if x < y then x else y }

  lemma CommonHolds(w: seq<byte>, all: seq<byte>, base: nat, s: nat, ahead: nat, c: nat)
    requires Holds(w, all, base, s, ahead) && c < s
    ensures Common(all, base + c, base + s) == Min(MatchLen(w, s, c), ahead)
  {
    hide Holds, Run, CommonFrom;
    HoldsSizes(w, all, base, s, ahead);
    RunCommon(w, all, base, s, ahead, c, 0);
  }

  /** The table of links and the head of the chain are those of the window. */
  ghost predicate Chained(w: seq<byte>, links: seq<nat>, s: nat, hashHead: nat) {
    s + 2 < |w| && |links| == WSIZE && Links(w, links, s + 1) && Latest(w, hashHead, s, KeyAt(w, s))
  }

  /** A candidate in the input is tried in the window. */
  lemma CandidateTried(w: seq<byte>, links: seq<nat>, all: seq<byte>, base: nat, s: nat, ahead: nat, hashHead: nat,
                       n: nat, c: nat)
    requires Holds(w, all, base, s, ahead) && Chained(w, links, s, hashHead) && Candidate(all, c, base + s, n)
    ensures 0 < hashHead && s <= hashHead + MAX_DIST
    ensures base < c && c - base < s && c - base in Visited(links, hashHead, Limit(s), n)
  {
    hide Holds, Between, Links, Visited, KeyAt;
    HoldsSizes(w, all, base, s, ahead);
    var d := c - base;
    KeyHolds(w, all, base, s, ahead, d);
    KeyHolds(w, all, base, s, ahead, s);
    var h := KeyAt(w, s);
    BetweenHolds(w, all, base, s, ahead, d, s, h);
    assert d <= hashHead;
    BetweenLatest(w, d, hashHead, s, h);
    VisitedAll(w, links, s, hashHead, n, d);
  }

  /** A string tried in the window is on the chain in the input. */
  lemma TriedOnChain(w: seq<byte>, links: seq<nat>, all: seq<byte>, base: nat, s: nat, ahead: nat, hashHead: nat,
                     n: nat, at: nat)
    requires Holds(w, all, base, s, ahead) && Chained(w, links, s, hashHead) && ahead >= MIN_MATCH
    requires 0 < hashHead && s <= hashHead + MAX_DIST && at in Visited(links, hashHead, Limit(s), n)
    ensures 0 < at < s <= at + MAX_DIST && KeyAt(all, base + at) == KeyAt(all, base + s)
    ensures Between(all, base + at, base + s, KeyAt(all, base + s)) < n
  {
    hide Holds, Between, Links, Visited, KeyAt;
    HoldsSizes(w, all, base, s, ahead);
    VisitedMeans(w, links, s, hashHead, n, at);
    KeyHolds(w, all, base, s, ahead, at);
    KeyHolds(w, all, base, s, ahead, s);
    var h := KeyAt(w, s);
    BetweenHolds(w, all, base, s, ahead, at, s, h);
    BetweenLatest(w, at, hashHead, s, h);
  }

  // ---- the search

  /** The length that deflate makes of what longest_match gives: cut to the lookahead, and three bytes that are too far
      away are none. */
  function Usable(best: nat, ahead: nat, s: nat, at: int): nat {
    var cut := Min(best, ahead);
    if cut == MIN_MATCH && s - at > TOO_FAR then MIN_MATCH - 1 else cut
  }

  /** What longest_match promises. */
  ghost predicate Searched(w: seq<byte>, links: seq<nat>, s: nat, hashHead: nat, p: nat, best: nat, at: int)
    requires |links| == WSIZE
  {
    var tried := Visited(links, hashHead, Limit(s), ChainLength(p));
    && 0 < hashHead < s <= hashHead + MAX_DIST && p <= best && Beaten(w, s, tried, best, best > p, at)
    && (best > p ==> 0 <= at < s && at in tried && s + MAX_MATCH <= |w| && MatchLen(w, s, at) == best)
  }

  lemma SearchAtMost(w: seq<byte>, links: seq<nat>, all: seq<byte>, base: nat, s: nat, ahead: nat, hashHead: nat,
                     p: nat,
                     best: nat, at: int, c: nat)
    requires Holds(w, all, base, s, ahead) && Chained(w, links, s, hashHead)
    requires Candidate(all, c, base + s, ChainLength(p))
    requires Searched(w, links, s, hashHead, p, best, at)
    ensures var n, len := Common(all, c, base + s), Usable(best, ahead, s, at);
            n <= p || n <= len || (n == MIN_MATCH && (base + s - c > TOO_FAR || base + s + n == |all|))
    ensures best > p && base + at < c ==> Common(all, c, base + s) < best
  {
    hide Holds, Chained, Candidate, MatchLen, Visited, Common;
    HoldsSizes(w, all, base, s, ahead);
    CandidateTried(w, links, all, base, s, ahead, hashHead, ChainLength(p), c);
    CommonHolds(w, all, base, s, ahead, c - base);
    assert Longest(w, s, c - base, if best > p && c - base > at && best > 0 then best - 1 else best);
  }

  lemma SearchBest(w: seq<byte>, links: seq<nat>, all: seq<byte>, base: nat, s: nat, ahead: nat, hashHead: nat, p: nat,
                   best: nat, at: int)
    requires Holds(w, all, base, s, ahead) && Chained(w, links, s, hashHead)
    requires Searched(w, links, s, hashHead, p, best, at)
    ensures var len := Usable(best, ahead, s, at);
            len > p && len >= MIN_MATCH ==> Best(all, base + s, p, len, base + at)
  {
    hide Holds, Chained, Candidate, MatchLen, Visited, Common, Between, KeyAt, Repeats, Beaten;
    HoldsSizes(w, all, base, s, ahead);
    var len := Usable(best, ahead, s, at);
    if len > p && len >= MIN_MATCH {
      TriedOnChain(w, links, all, base, s, ahead, hashHead, ChainLength(p), at);
      CommonHolds(w, all, base, s, ahead, at);
      CommonRepeats(all, base + at, base + s, len);
      var q, n := base + s, ChainLength(p);
      CandidateBefore(all, q, n);
      forall c: nat | c > base + at && Candidate(all, c, q, n) && q + MAX_MATCH <= |all|
        ensures Common(all, c, q) < len
      {
        SearchAtMost(w, links, all, base, s, ahead, hashHead, p, best, at, c);
      }
    }
  }

  lemma {:induction false} CommonMeans(all: seq<byte>, c: nat, q: nat, k: nat)
    requires c < q && k <= MAX_MATCH && q + k <= |all|
    ensures forall i :: q + k <= i < q + CommonFrom(all, c, q, k) ==> all[i] == all[i - (q - c)]
    decreases MAX_MATCH - k
  {
    if k < MAX_MATCH && q + k < |all| && all[c + k] == all[q + k] { CommonMeans(all, c, q, k + 1); }
  }

  lemma CommonRepeats(all: seq<byte>, c: nat, q: nat, len: nat)
    requires c < q <= c + MAX_DIST && q <= |all| && Common(all, c, q) == len >= MIN_MATCH
    ensures Repeats(all, c, q, len)
  {
    hide CommonFrom;
    CommonMeans(all, c, q, 0);
  }

  /** A search finds what it should. */
  lemma SearchFound(w: seq<byte>, links: seq<nat>, all: seq<byte>, base: nat, s: nat, ahead: nat, hashHead: nat, p: nat,
                    best: nat, at: int)
    requires Holds(w, all, base, s, ahead) && Chained(w, links, s, hashHead)
    requires Searched(w, links, s, hashHead, p, best, at)
    ensures Found(all, base + s, p, Usable(best, ahead, s, at), base + at)
  {
    hide Holds, Chained, Candidate, Common, Searched, Best, Usable;
    HoldsSizes(w, all, base, s, ahead);
    var q, chain := base + s, ChainLength(p);
    CandidateBefore(all, q, chain);
    SearchBest(w, links, all, base, s, ahead, hashHead, p, best, at);
    forall c: nat | Candidate(all, c, q, chain)
      ensures var n, len := Common(all, c, q), Usable(best, ahead, s, at);
              n <= p || n <= len || (n == MIN_MATCH && (q - c > TOO_FAR || q + n == |all|))
    {
      SearchAtMost(w, links, all, base, s, ahead, hashHead, p, best, at, c);
    }
  }

  /** Where there is nothing on the chain in reach, or nothing longer is possible, there is nothing to find. */
  lemma NothingFound(w: seq<byte>, links: seq<nat>, all: seq<byte>, base: nat, s: nat, ahead: nat, hashHead: nat,
                     p: nat,
                     from: int)
    requires Holds(w, all, base, s, ahead) && Chained(w, links, s, hashHead)
    requires hashHead == 0 || s > hashHead + MAX_DIST || p >= MAX_LAZY_MATCH
    ensures Found(all, base + s, p, MIN_MATCH - 1, from)
  {
    hide Holds, Chained, Candidate;
    var q, n := base + s, ChainLength(p);
    forall c: nat | Candidate(all, c, q, n) ensures p >= MAX_LAZY_MATCH {
      CandidateTried(w, links, all, base, s, ahead, hashHead, ChainLength(p), c);
    }
  }
}
