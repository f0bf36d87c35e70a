/** The lazy matching of deflate in gzip.c, as a law on the input and the tokens alone. */
module LazyMatch {
  import opened Bits
  import opened Lz77
  import opened DeflateTables
  import opened HashChains

  const TOO_FAR := 4096

  // ---- matches in the input

  /** The input from `at` on repeats the input from `from` on for `len` bytes. */
  ghost predicate Repeats(all: seq<byte>, from: int, at: int, len: nat) {
    && 0 <= from < at <= from + MAX_DIST && MIN_MATCH <= len <= MAX_MATCH && at + len <= |all|
    && forall i :: at <= i < at + len ==> all[i] == all[i - (at - from)]
  }

  /** How many bytes from offset `k` on are equal at `c` and `q`, counted up to MAX_MATCH and the end. */
  ghost function CommonFrom(all: seq<byte>, c: nat, q: nat, k: nat): (r: nat)
    requires c < q && k <= MAX_MATCH && q + k <= |all|
    ensures k <= r <= MAX_MATCH && q + r <= |all|
    decreases MAX_MATCH - k
  {
    if k == MAX_MATCH || q + k == |all| || all[c + k] != all[q + k] then k else CommonFrom(all, c, q, k + 1)
  }

  ghost function Common(all: seq<byte>, c: nat, q: nat): (r: nat)
    requires c < q <= |all|
    ensures r <= MAX_MATCH && q + r <= |all|
  {
    CommonFrom(all, c, q, 0)
  }

  /** The string at `c` is on the chain of the one at `q`, in reach and among the first `n`; the string at the very
      start never is. */
  ghost predicate Candidate(all: seq<byte>, c: nat, q: nat, n: nat) {
    && 0 < c < q < c + MAX_DIST && q + 2 < |all|
    && KeyAt(all, c) == KeyAt(all, q) && Between(all, c, q, KeyAt(all, q)) < n
  }

  /** No candidate at `q` has a match longer than both `len` and the length to beat, `p`; but three bytes that are too
      far away do not count, and three bytes at the end may not. */
  ghost predicate AtMost(all: seq<byte>, q: nat, p: nat, len: nat) {
    forall c: nat :: Candidate(all, c, q, ChainLength(p)) ==>
      var n := Common(all, c, q);
      n < MIN_MATCH || n <= p || n <= len || (n == MIN_MATCH && (q - c > TOO_FAR || q + n == |all|))
  }

  /** In numbers: a string fewer than 32506 bytes back, with fewer than 4096 strings of its key in between, or 1024 if
      32 bytes have to be beaten. */
  lemma CandidateInNumbers(all: seq<byte>, c: nat, q: nat, p: nat)
    ensures Candidate(all, c, q, ChainLength(p)) <==>
            && 0 < c < q < c + 32506 && q + 2 < |all| && KeyAt(all, c) == KeyAt(all, q)
            && Between(all, c, q, KeyAt(all, q)) < if p >= 32 then 1024 else 4096
    ensures TOO_FAR == 4096 && MIN_MATCH == 3 && MAX_MATCH == 258
  {
  }

  /** The match with `from` is one of a string on the chain, and of those as long the nearest. */
  ghost predicate Best(all: seq<byte>, q: nat, p: nat, len: nat, from: int) {
    && Repeats(all, from, q, len) && 0 < from && Common(all, from, q) == len
    && KeyAt(all, from) == KeyAt(all, q) && Between(all, from, q, KeyAt(all, q)) < ChainLength(p)
    && (len == MIN_MATCH ==> q - from <= TOO_FAR)
    && (q + MAX_MATCH <= |all| ==> Nearest(all, q, p, len, from))
  }

  ghost predicate Nearest(all: seq<byte>, q: nat, p: nat, len: nat, from: int) {
    forall c: nat :: c > from && Candidate(all, c, q, ChainLength(p)) ==> Common(all, c, q) < len
  }

  /** What a search at `q` for more than `p` bytes finds. */
  ghost predicate Found(all: seq<byte>, q: nat, p: nat, len: nat, from: int) {
    AtMost(all, q, p, len) && (len > p && len >= MIN_MATCH ==> Best(all, q, p, len, from))
  }

  /** No candidate at `q` has a match longer than `p`. */
  ghost predicate NoneLonger(all: seq<byte>, q: nat, p: nat) {
    forall c: nat :: Candidate(all, c, q, ChainLength(p)) ==> Common(all, c, q) <= p
  }

  // ---- the rule

  ghost function Length(ts: seq<Token>): nat {
    if ts == [] then 0 else Length(ts[..|ts| - 1]) + TokenLength(ts[|ts| - 1])
  }

  /** What has to be exceeded behind the tokens: the length found at the byte put out last, if it was a byte. */
  ghost function Prior(ts: seq<Token>, found: seq<nat>): nat
    requires |ts| == |found|
  {
    if ts != [] && ts[|ts| - 1].Literal? then found[|found| - 1] else MIN_MATCH - 1
  }

  /** A byte was put out in place of a match only if the next match is longer. */
  ghost predicate Deferred(ts: seq<Token>, found: seq<nat>, len: nat)
    requires |ts| == |found|
  {
    Prior(ts, found) >= MIN_MATCH ==> len > Prior(ts, found)
  }

  /** Behind the tokens a match of `len` bytes is found, or none if it is less than three. */
  ghost predicate Waiting(all: seq<byte>, ts: seq<Token>, found: seq<nat>, len: nat, from: int)
    requires |ts| == |found|
  {
    Deferred(ts, found, len) && Found(all, Length(ts), Prior(ts, found), len, from)
  }

  /** A match goes out as it was found, and only if there is no longer one at the next byte. */
  ghost predicate Follows(all: seq<byte>, ts: seq<Token>, found: seq<nat>, t: Token, len: nat)
    requires |ts| == |found|
  {
    match t
    case Literal(c) => exists from :: Waiting(all, ts, found, len, from)
    case Match(l, dist) =>
      && l == len >= MIN_MATCH && Waiting(all, ts, found, len, Length(ts) - dist)
      && NoneLonger(all, Length(ts) + 1, len)
  }

  /** The tokens follow the rule; `found` are the lengths found where they start. */
  ghost predicate Lazy(all: seq<byte>, ts: seq<Token>, found: seq<nat>) {
    |ts| == |found| &&
    (ts == [] ||
     var n := |ts| - 1;
     Lazy(all, ts[..n], found[..n]) && Follows(all, ts[..n], found[..n], ts[n], found[n]))
  }

  /** At the end no match is given up. */
  ghost predicate Settled(ts: seq<Token>, found: seq<nat>)
    requires |ts| == |found|
  {
    Prior(ts, found) < MIN_MATCH
  }

  lemma LazyNext(all: seq<byte>, ts: seq<Token>, found: seq<nat>, t: Token, len: nat)
    requires Lazy(all, ts, found) && Follows(all, ts, found, t, len)
    ensures Lazy(all, ts + [t], found + [len]) && Length(ts + [t]) == Length(ts) + TokenLength(t)
    ensures Prior(ts + [t], found + [len]) == if t.Literal? then len else MIN_MATCH - 1
  {
    hide Follows;
    assert (ts + [t])[..|ts|] == ts && (found + [len])[..|found|] == found;
  }

  // ---- more input

  lemma {:induction false} CommonMore(all: seq<byte>, more: seq<byte>, c: nat, q: nat, k: nat)
    requires all <= more && c < q && k <= MAX_MATCH && q + MAX_MATCH <= |all|
    ensures CommonFrom(all, c, q, k) == CommonFrom(more, c, q, k)
    decreases MAX_MATCH - k
  {
    if k < MAX_MATCH && all[c + k] == all[q + k] { CommonMore(all, more, c, q, k + 1); }
  }

  lemma {:induction false} BetweenMore(all: seq<byte>, more: seq<byte>, c: nat, n: nat, h: nat)
    requires all <= more && n + 1 < |all|
    ensures Between(all, c, n, h) == Between(more, c, n, h)
    decreases n
  {
    hide KeyAt;
    if n > c + 1 {
      BetweenMore(all, more, c, n - 1, h);
      KeyMore(all, more, n - 1);
    }
  }

  lemma KeyMore(all: seq<byte>, more: seq<byte>, p: nat)
    requires all <= more && p + 2 < |all|
    ensures KeyAt(all, p) == KeyAt(more, p)
  {
  }

  lemma CandidateMore(all: seq<byte>, more: seq<byte>, c: nat, q: nat, n: nat)
    requires all <= more && c < q && q + MAX_MATCH <= |all|
    ensures Candidate(all, c, q, n) <==> Candidate(more, c, q, n)
    ensures Common(all, c, q) == Common(more, c, q)
  {
    hide Between, CommonFrom, KeyAt;
    CommonMore(all, more, c, q, 0);
    BetweenMore(all, more, c, q, KeyAt(all, q));
    KeyMore(all, more, q);
    KeyMore(all, more, c);
  }

  /** A search with the full lookahead finds the same whatever is read later. */
  lemma FoundMore(all: seq<byte>, more: seq<byte>, q: nat, p: nat, len: nat, from: int)
    requires all <= more && q + MAX_MATCH <= |all| && Found(all, q, p, len, from)
    ensures Found(more, q, p, len, from)
  {
    hide Candidate, Common, Between, KeyAt;
    forall c: nat | c < q
      ensures Candidate(all, c, q, ChainLength(p)) <==> Candidate(more, c, q, ChainLength(p))
      ensures Common(all, c, q) == Common(more, c, q)
    {
      CandidateMore(all, more, c, q, ChainLength(p));
    }
    CandidateBefore(more, q, ChainLength(p));
    if len > p && len >= MIN_MATCH {
      BestMore(all, more, q, p, len, from);
    }
  }

  lemma CandidateBefore(all: seq<byte>, q: nat, n: nat)
    ensures forall c: nat :: Candidate(all, c, q, n) ==> c < q
  {
  }

  lemma BestMore(all: seq<byte>, more: seq<byte>, q: nat, p: nat, len: nat, from: int)
    requires all <= more && q + MAX_MATCH <= |all| && Best(all, q, p, len, from)
    ensures Best(more, q, p, len, from)
  {
    hide Candidate, Common, Between, KeyAt;
    CandidateMore(all, more, from, q, ChainLength(p));
    BetweenMore(all, more, from, q, KeyAt(all, q));
    KeyMore(all, more, q);
    KeyMore(all, more, from);
    CandidateBefore(more, q, ChainLength(p));
    forall c: nat | c > from && Candidate(more, c, q, ChainLength(p)) ensures Common(more, c, q) < len {
      CandidateMore(all, more, c, q, ChainLength(p));
    }
  }

  lemma NoneLongerMore(all: seq<byte>, more: seq<byte>, q: nat, p: nat)
    requires all <= more && q + MAX_MATCH <= |all| && NoneLonger(all, q, p)
    ensures NoneLonger(more, q, p)
  {
    hide Candidate, Common;
    CandidateBefore(more, q, ChainLength(p));
    forall c: nat | Candidate(more, c, q, ChainLength(p)) ensures Common(more, c, q) <= p {
      CandidateMore(all, more, c, q, ChainLength(p));
    }
  }

  lemma WaitingMore(all: seq<byte>, more: seq<byte>, ts: seq<Token>, found: seq<nat>, len: nat, from: int)
    requires |ts| == |found| && all <= more && Length(ts) + MAX_MATCH <= |all| && Waiting(all, ts, found, len, from)
    ensures Waiting(more, ts, found, len, from)
  {
    hide Found, Length;
    FoundMore(all, more, Length(ts), Prior(ts, found), len, from);
  }

  /** Tokens that start early enough keep to the rule whatever is read later. */
  lemma {:induction false} LazyMore(all: seq<byte>, more: seq<byte>, ts: seq<Token>, found: seq<nat>)
    requires all <= more && Lazy(all, ts, found)
    requires ts != [] ==> Length(ts[..|ts| - 1]) + 1 + MAX_MATCH <= |all|
    ensures Lazy(more, ts, found)
  {
    hide Waiting, NoneLonger;
    if ts != [] {
      var n := |ts| - 1;
      if n > 0 { LengthLess(ts[..n]); }
      LazyMore(all, more, ts[..n], found[..n]);
      var t, len := ts[n], found[n];
      if t.Literal? {
        var from :| Waiting(all, ts[..n], found[..n], len, from);
        WaitingMore(all, more, ts[..n], found[..n], len, from);
      } else {
        WaitingMore(all, more, ts[..n], found[..n], len, Length(ts[..n]) - t.dist);
        NoneLongerMore(all, more, Length(ts[..n]) + 1, len);
      }
    }
  }

  lemma LengthLess(ts: seq<Token>)
    requires ts != []
    ensures Length(ts[..|ts| - 1]) <= Length(ts)
  {
  }

  // ---- step by step

  /** The tokens follow the rule up to `q`; the byte before it may wait, with the match found there. */
  ghost predicate Lawful(all: seq<byte>, ts: seq<Token>, found: seq<nat>, q: nat, avail: bool, len: nat, from: int) {
    && Lazy(all, ts, found) && Length(ts) == q - (if avail then 1 else 0)
    && (if avail then Waiting(all, ts, found, len, from) else len == Prior(ts, found) == MIN_MATCH - 1)
  }

  lemma LawRepeats(all: seq<byte>, ts: seq<Token>, found: seq<nat>, q: nat, avail: bool, len: nat, from: int)
    requires Lawful(all, ts, found, q, avail, len, from) && len >= MIN_MATCH
    ensures avail && Repeats(all, from, q - 1, len) && 0 <= from < q - 1
  {
    hide Lazy, Length, AtMost, Nearest, Common;
  }

  /** The match that waits goes out. */
  lemma LawMatch(all: seq<byte>, ts: seq<Token>, found: seq<nat>, q: nat, len: nat, from: int, next: nat, nextFrom: int)
    requires Lawful(all, ts, found, q, true, len, from) && len >= MIN_MATCH && q - 1 > from
    requires Found(all, q, len, next, nextFrom) && next <= len
    ensures Lawful(all, ts + [Match(len, q - 1 - from)], found + [len], q - 1 + len, false, MIN_MATCH - 1, nextFrom)
    ensures NoneLonger(all, q, len)
  {
    hide Lazy, Length, Waiting, Candidate, Common;
    LazyNext(all, ts, found, Match(len, q - 1 - from), len);
  }

  /** The byte that waits goes out. */
  lemma LawByte(all: seq<byte>, ts: seq<Token>, found: seq<nat>, q: nat, len: nat, from: int, c: byte, next: nat,
                nextFrom: int)
    requires Lawful(all, ts, found, q, true, len, from) && Found(all, q, len, next, nextFrom)
    requires len >= MIN_MATCH ==> next > len
    ensures Lawful(all, ts + [Literal(c)], found + [len], q + 1, true, next, nextFrom)
    ensures len >= MIN_MATCH ==> Best(all, q, len, next, nextFrom)
  {
    hide Lazy, Length, AtMost, Best;
    LazyNext(all, ts, found, Literal(c), len);
  }

  /** A byte begins to wait. */
  lemma LawWait(all: seq<byte>, ts: seq<Token>, found: seq<nat>, q: nat, len: nat, from: int, next: nat, nextFrom: int)
    requires Lawful(all, ts, found, q, false, len, from) && Found(all, q, len, next, nextFrom)
    ensures Lawful(all, ts, found, q + 1, true, next, nextFrom)
  {
    hide Lazy, Length, Found;
  }

  /** The last byte goes out. */
  lemma LawLast(all: seq<byte>, ts: seq<Token>, found: seq<nat>, len: nat, from: int, c: byte)
    requires Lawful(all, ts, found, |all|, true, len, from)
    ensures Lazy(all, ts + [Literal(c)], found + [len]) && Settled(ts + [Literal(c)], found + [len])
  {
    hide Lazy, Length, Waiting;
    if len >= MIN_MATCH { LawRepeats(all, ts, found, |all|, true, len, from); }
    LazyNext(all, ts, found, Literal(c), len);
  }

  lemma LawMore(all: seq<byte>, more: seq<byte>, ts: seq<Token>, found: seq<nat>, q: nat, avail: bool, len: nat,
                from: int)
    requires Lawful(all, ts, found, q, avail, len, from) && all <= more
    requires ts != [] ==> Length(ts[..|ts| - 1]) + 1 + MAX_MATCH <= |all|
    requires avail ==> q - 1 + MAX_MATCH <= |all|
    ensures Lawful(more, ts, found, q, avail, len, from)
  {
    hide Follows, Waiting;
    LazyMore(all, more, ts, found);
    if avail { WaitingMore(all, more, ts, found, len, from); }
  }

  // ---- what the rule says of whole inputs

  lemma {:induction false} LazyAt(all: seq<byte>, ts: seq<Token>, found: seq<nat>, k: nat)
    requires Lazy(all, ts, found) && k < |ts|
    ensures |ts| == |found| && Follows(all, ts[..k], found[..k], ts[k], found[k])
    decreases |ts|
  {
    hide Follows;
    var n := |ts| - 1;
    if k < n {
      LazyAt(all, ts[..n], found[..n], k);
      assert ts[..n][..k] == ts[..k] && found[..n][..k] == found[..k];
    }
  }

  /** What is found fits. */
  lemma WaitingFits(all: seq<byte>, ts: seq<Token>, found: seq<nat>, len: nat, from: int)
    requires |ts| == |found| && Waiting(all, ts, found, len, from) && len >= MIN_MATCH
    ensures len <= MAX_MATCH && Length(ts) + len <= |all|
  {
    hide AtMost, Common, Nearest, Length;
  }

  lemma FollowsWaits(all: seq<byte>, ts: seq<Token>, found: seq<nat>, t: Token, len: nat) returns (from: int)
    requires |ts| == |found| && Follows(all, ts, found, t, len)
    ensures Waiting(all, ts, found, len, from)
  {
    hide Waiting, Length;
    if t.Literal? { from :| Waiting(all, ts, found, len, from); } else { from := Length(ts) - t.dist; }
  }

  /** A byte in place of a match is followed by a longer match. */
  lemma LongerLater(all: seq<byte>, ts: seq<Token>, found: seq<nat>, k: nat)
    requires Lazy(all, ts, found) && 0 < k < |ts| == |found| && ts[k - 1].Literal? && found[k - 1] >= MIN_MATCH
    ensures found[k - 1] < found[k] <= MAX_MATCH && Length(ts[..k - 1]) + 1 + found[k] <= |all|
  {
    hide Found, Follows, Lazy;
    LazyAt(all, ts, found, k);
    var from := FollowsWaits(all, ts[..k], found[..k], ts[k], found[k]);
    assert ts[..k][..k - 1] == ts[..k - 1];
    WaitingFits(all, ts[..k], found[..k], found[k], from);
  }

  /** A byte goes out by itself exactly if no match that may be used starts there, or a longer one starts behind it; a
      match goes out if no longer one does. */
  lemma RuleAt(all: seq<byte>, ts: seq<Token>, found: seq<nat>, k: nat)
    requires Lazy(all, ts, found) && Settled(ts, found) && k < |ts|
    ensures |found| == |ts|
    ensures ts[k].Match? ==>
            && found[k] == ts[k].len && NoneLonger(all, Length(ts[..k]) + 1, ts[k].len)
            && AtMost(all, Length(ts[..k]), ts[k].len, ts[k].len)
            && Repeats(all, Length(ts[..k]) - ts[k].dist, Length(ts[..k]), ts[k].len)
    ensures ts[k].Literal? && found[k] < MIN_MATCH ==> AtMost(all, Length(ts[..k]), MIN_MATCH - 1, MIN_MATCH - 1)
    ensures ts[k].Literal? && found[k] >= MIN_MATCH ==>
            k + 1 < |ts| && found[k] < found[k + 1] <= MAX_MATCH && Length(ts[..k]) + 1 + found[k + 1] <= |all|
  {
    hide Found, Lazy, Length;
    LazyAt(all, ts, found, k);
    var from := FollowsWaits(all, ts[..k], found[..k], ts[k], found[k]);
    if ts[k].Literal? {
      if found[k] >= MIN_MATCH {
        if k + 1 < |ts| { LongerLater(all, ts, found, k + 1); }
      } else {
        ShortFound(all, Length(ts[..k]), Prior(ts[..k], found[..k]), found[k], from);
      }
    } else {
      MatchFound(all, Length(ts[..k]), Prior(ts[..k], found[..k]), found[k], Length(ts[..k]) - ts[k].dist);
    }
  }

  lemma ShortFound(all: seq<byte>, q: nat, p: nat, len: nat, from: int)
    requires Found(all, q, p, len, from) && len < MIN_MATCH && p < MIN_MATCH
    ensures AtMost(all, q, MIN_MATCH - 1, MIN_MATCH - 1)
  {
    hide Candidate, Common;
  }

  lemma MatchFound(all: seq<byte>, q: nat, p: nat, len: nat, from: int)
    requires Found(all, q, p, len, from) && len >= MIN_MATCH && len > p
    ensures AtMost(all, q, len, len) && Repeats(all, from, q, len)
  {
    hide Common, Nearest, Between, KeyAt;
    assert forall c: nat :: Candidate(all, c, q, ChainLength(len)) ==> Candidate(all, c, q, ChainLength(p));
  }

  lemma {:induction false} CommonSame(all: seq<byte>, b: byte, c: nat, q: nat, k: nat)
    requires all == seq(|all|, _ => b) && c < q && k <= MAX_MATCH && q + k <= |all|
    ensures CommonFrom(all, c, q, k) == if |all| - q < MAX_MATCH then |all| - q else MAX_MATCH
    decreases MAX_MATCH - k
  {
    if k < MAX_MATCH && q + k < |all| { CommonSame(all, b, c, q, k + 1); }
  }

  /** In equal bytes the byte before is a candidate. */
  lemma CandidateSame(all: seq<byte>, b: byte, q: nat, n: nat)
    requires all == seq(|all|, _ => b) && 2 <= q && q + 2 < |all| && n > 0
    ensures Candidate(all, q - 1, q, n)
  {
  }

  /** What is found in equal bytes, from the third one on and before the last three. */
  lemma FoundSame(all: seq<byte>, b: byte, q: nat, p: nat, len: nat, from: int)
    requires all == seq(|all|, _ => b) && 2 <= q && q + MIN_MATCH < |all| && Found(all, q, p, len, from)
    ensures len >= |all| - q || len >= MAX_MATCH || p >= |all| - q || p >= MAX_MATCH
    ensures len > p && len >= MIN_MATCH ==> len <= |all| - q
  {
    hide Candidate, Between, KeyAt;
    CandidateSame(all, b, q, ChainLength(p));
    CommonSame(all, b, q - 1, q, 0);
  }

  lemma WaitingSame(all: seq<byte>, b: byte, ts: seq<Token>, found: seq<nat>, len: nat, from: int)
    requires |ts| == |found| && all == seq(|all|, _ => b) && Waiting(all, ts, found, len, from)
    requires 2 <= Length(ts) && Length(ts) + MIN_MATCH < |all|
    ensures len >= MAX_MATCH || len >= |all| - Length(ts)
  {
    hide Found, Length;
    FoundSame(all, b, Length(ts), Prior(ts, found), len, from);
  }

  /** Of equal bytes only the first two and the last three can go out by themselves. */
  lemma SameBytes(all: seq<byte>, b: byte, ts: seq<Token>, found: seq<nat>, k: nat)
    requires all == seq(|all|, _ => b) && Lazy(all, ts, found) && Settled(ts, found) && k < |ts| && ts[k].Literal?
    ensures var q := Length(ts[..k]); q < 2 || q + MIN_MATCH >= |all|
  {
    hide Waiting, Follows, Lazy, Length;
    var q := Length(ts[..k]);
    LazyAt(all, ts, found, k);
    var from := FollowsWaits(all, ts[..k], found[..k], ts[k], found[k]);
    if 2 <= q && q + MIN_MATCH < |all| {
      WaitingSame(all, b, ts[..k], found[..k], found[k], from);
      if k + 1 < |ts| { LongerLater(all, ts, found, k + 1); }
    }
  }
}
