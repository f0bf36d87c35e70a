/** The hash chains of gzip.c: which strings with the same key a search comes by. */
module HashChains {
  import opened Bits
  import opened DeflateTables
  import opened RollingHash

  const WSIZE := 0x8000
  const WINDOW_SIZE := 2 * WSIZE
  const MIN_LOOKAHEAD := MAX_MATCH + MIN_MATCH + 1
  const MAX_DIST := WSIZE - MIN_LOOKAHEAD
  const MAX_CHAIN_LENGTH := 4096
  const GOOD_MATCH := 32

  /** The place of window position `p` in the link table. */
  function Slot(p: nat): (i: nat)
    ensures i < WSIZE
  {
    p % WSIZE
  }

  lemma SlotPeriod(p: nat)
    ensures Slot(p) == Slot(p + WSIZE)
  {
  }

  /** The key of the string at `p`. */
  ghost function KeyAt(w: seq<byte>, p: nat): (h: nat)
    requires p + 2 < |w|
    ensures h < HASH_SIZE
  {
    Hash3(w[p], w[p + 1], w[p + 2])
  }

  /** `q` is the latest string before `n` with the key `h`; zero stands for none. */
  ghost predicate Latest(w: seq<byte>, q: nat, n: nat, h: nat)
    requires n + 1 < |w|
  {
    (q == 0 || (q < n && KeyAt(w, q) == h)) && forall r: nat :: q < r < n ==> KeyAt(w, r) != h
  }

  /** Every chain starts at the latest string with its key. */
  ghost predicate Heads(w: seq<byte>, head: seq<nat>, n: nat)
    requires n + 1 < |w| && |head| == HASH_SIZE
  {
    forall h: nat :: h < HASH_SIZE ==> Latest(w, head[h], n, h)
  }

  /** Each of the last WSIZE strings is linked to the latest one before it with the same key. */
  ghost predicate Links(w: seq<byte>, prev: seq<nat>, n: nat)
    requires n + 1 < |w| && |prev| == WSIZE
  {
    forall p: nat :: p < n <= p + WSIZE ==> Latest(w, prev[Slot(p)], p, KeyAt(w, p))
  }

  // ---- inserting a string

  lemma HeadsInsert(w: seq<byte>, head: seq<nat>, s: nat)
    requires s + 2 < |w| && |head| == HASH_SIZE && Heads(w, head, s)
    ensures Heads(w, head[KeyAt(w, s) := s], s + 1)
  {
    hide KeyAt;
    var next := head[KeyAt(w, s) := s];
    forall h: nat | h < HASH_SIZE ensures Latest(w, next[h], s + 1, h) { assert Latest(w, head[h], s, h); }
  }

  lemma LinksInsert(w: seq<byte>, prev: seq<nat>, s: nat, q: nat)
    requires s + 2 < |w| && |prev| == WSIZE && Links(w, prev, s) && Latest(w, q, s, KeyAt(w, s))
    ensures Links(w, prev[Slot(s) := q], s + 1)
  {
    hide KeyAt, Latest;
    var next := prev[Slot(s) := q];
    forall p: nat | p < s + 1 <= p + WSIZE ensures Latest(w, next[Slot(p)], p, KeyAt(w, p)) {
      if p < s { OtherSlot(p, s); }
    }
  }

  lemma OtherSlot(p: nat, s: nat)
    requires p < s < p + WSIZE
    ensures Slot(p) != Slot(s)
  {
  }

  // ---- moving and reading

  /** The strings before `n` are the same in `w` and, from `d` on, in `v`. */
  ghost predicate Moved(w: seq<byte>, v: seq<byte>, n: nat, d: nat)
    requires d <= n && n + 1 < |w| && n - d + 1 < |v|
  {
    forall p: nat :: p < n - d ==> KeyAt(v, p) == KeyAt(w, p + d)
  }

  lemma MovedBytes(w: seq<byte>, v: seq<byte>, n: nat, d: nat)
    requires d <= n && n + 1 < |w| && n - d + 1 < |v|
    requires n > d ==> forall i: nat :: i < n - d + 2 ==> v[i] == w[i + d]
    ensures Moved(w, v, n, d)
  {
    forall p: nat | p < n - d ensures KeyAt(v, p) == KeyAt(w, p + d) {
      assert v[p] == w[p + d] && v[p + 1] == w[p + 1 + d] && v[p + 2] == w[p + 2 + d];
    }
  }

  /** A position moved down; what leaves the window becomes zero. */
  function Down(q: nat, d: nat): nat { if q >= d then q - d else 0 }

  lemma LatestMoves(w: seq<byte>, v: seq<byte>, q: nat, n: nat, d: nat, h: nat)
    requires d <= n && n + 1 < |w| && n - d + 1 < |v| && Moved(w, v, n, d) && Latest(w, q, n, h)
    ensures Latest(v, Down(q, d), n - d, h)
  {
    hide KeyAt;
    forall r: nat | Down(q, d) < r < n - d ensures KeyAt(v, r) != h { assert KeyAt(v, r) == KeyAt(w, r + d); }
  }

  lemma HeadsMove(w: seq<byte>, v: seq<byte>, head: seq<nat>, next: seq<nat>, n: nat, d: nat)
    requires d <= n && n + 1 < |w| && n - d + 1 < |v| && Moved(w, v, n, d) && |head| == |next| == HASH_SIZE
    requires Heads(w, head, n) && forall h: nat :: h < HASH_SIZE ==> next[h] == Down(head[h], d)
    ensures Heads(v, next, n - d)
  {
    hide Latest;
    forall h: nat | h < HASH_SIZE ensures Latest(v, next[h], n - d, h) { LatestMoves(w, v, head[h], n, d, h); }
  }

  lemma LinksMove(w: seq<byte>, v: seq<byte>, prev: seq<nat>, next: seq<nat>, n: nat, d: nat)
    requires d <= n && n + 1 < |w| && n - d + 1 < |v| && Moved(w, v, n, d) && |prev| == |next| == WSIZE
    requires (d == 0 || d == WSIZE) && Links(w, prev, n) && forall i: nat :: i < WSIZE ==> next[i] == Down(prev[i], d)
    ensures Links(v, next, n - d)
  {
    hide Latest, KeyAt, Slot;
    forall p: nat | p < n - d <= p + WSIZE ensures Latest(v, next[Slot(p)], p, KeyAt(v, p)) {
      SlotPeriod(p);
      assert KeyAt(v, p) == KeyAt(w, p + d);
      LatestMoves(w, v, prev[Slot(p)], p + d, d, KeyAt(v, p)) by { MovedLess(w, v, n, d, p + d); }
    }
  }

  lemma MovedLess(w: seq<byte>, v: seq<byte>, n: nat, d: nat, m: nat)
    requires d <= m <= n && n + 1 < |w| && n - d + 1 < |v| && Moved(w, v, n, d)
    ensures Moved(w, v, m, d)
  {
    hide KeyAt;
  }

  /** Bytes behind the strings do not matter. */
  lemma ChainsStay(w: seq<byte>, v: seq<byte>, head: seq<nat>, prev: seq<nat>, n: nat)
    requires n + 1 < |w| && n + 1 < |v| && |head| == HASH_SIZE && |prev| == WSIZE
    requires n > 0 ==> forall i: nat :: i < n + 2 ==> v[i] == w[i]
    requires Heads(w, head, n) && Links(w, prev, n)
    ensures Heads(v, head, n) && Links(v, prev, n)
  {
    hide Heads, Links, Moved;
    MovedBytes(w, v, n, 0);
    HeadsMove(w, v, head, head, n, 0);
    LinksMove(w, v, prev, prev, n, 0);
  }

  // ---- following a chain

  /** Matches are not searched at or before this position. */
  function Limit(strstart: nat): nat { if strstart > MAX_DIST then strstart - MAX_DIST else 0 }

  /** How many strings of a chain are tried. */
  function ChainLength(prevLength: nat): nat {
    if prevLength >= GOOD_MATCH then MAX_CHAIN_LENGTH / 4 else MAX_CHAIN_LENGTH
  }

  /** The strings tried: `cur` and the older ones on its chain, `n` at most. */
  ghost function Visited(prev: seq<nat>, cur: nat, limit: nat, n: nat): seq<nat>
    requires |prev| == WSIZE
    decreases n
  {
    if n == 0 then [] else
      var next := prev[Slot(cur)];
      [cur] + if next > limit then Visited(prev, next, limit, n - 1) else []
  }

  /** How many strings after `c` and before `n` have the key `h`. */
  ghost function Between(w: seq<byte>, c: nat, n: nat, h: nat): nat
    requires n + 1 < |w|
    decreases n
  {
    if n <= c + 1 then 0 else Between(w, c, n - 1, h) + if KeyAt(w, n - 1) == h then 1 else 0
  }

  lemma {:induction false} BetweenLatest(w: seq<byte>, c: nat, q: nat, n: nat, h: nat)
    requires c <= q < n && n + 1 < |w| && forall r: nat :: q < r < n ==> KeyAt(w, r) != h
    ensures Between(w, c, n, h) == Between(w, c, q + 1, h)
    decreases n
  {
    hide KeyAt;
    if n > q + 1 { BetweenLatest(w, c, q, n - 1, h); }
  }

  /** The link of `cur`, and what it skips. */
  lemma LinkOf(w: seq<byte>, prev: seq<nat>, s: nat, cur: nat)
    requires s + 2 < |w| && |prev| == WSIZE && Links(w, prev, s + 1) && cur <= s < cur + WSIZE
    ensures var next, h := prev[Slot(cur)], KeyAt(w, cur);
            && (next == 0 || (next < cur && KeyAt(w, next) == h))
            && forall c: nat :: 0 < c < cur && KeyAt(w, c) == h ==>
                 0 < c <= next && Between(w, c, cur + 1, h) == Between(w, c, next + 1, h) + 1
  {
    hide KeyAt, Slot;
    var next, h := prev[Slot(cur)], KeyAt(w, cur);
    assert Latest(w, next, cur, h);
    forall c: nat | 0 < c < cur && KeyAt(w, c) == h
      ensures c <= next && Between(w, c, cur + 1, h) == Between(w, c, next + 1, h) + 1
    {
      BetweenLatest(w, c, next, cur, h);
    }
  }

  /** Every string in reach with the same key is tried if fewer than `n` such strings are nearer. */
  lemma {:induction false} VisitedAll(w: seq<byte>, prev: seq<nat>, s: nat, cur: nat, n: nat, c: nat)
    requires s + 2 < |w| && |prev| == WSIZE && Links(w, prev, s + 1) && Limit(s) < c <= cur < s
    requires KeyAt(w, c) == KeyAt(w, cur) && Between(w, c, cur + 1, KeyAt(w, c)) < n
    ensures c in Visited(prev, cur, Limit(s), n)
    decreases n
  {
    hide KeyAt, Slot, Between, Links;
    if c < cur {
      LinkOf(w, prev, s, cur);
      VisitedAll(w, prev, s, prev[Slot(cur)], n - 1, c);
    }
  }

  /** The strings tried are such strings. */
  lemma {:induction false} VisitedMeans(w: seq<byte>, prev: seq<nat>, s: nat, cur: nat, n: nat, c: nat)
    requires s + 2 < |w| && |prev| == WSIZE && Links(w, prev, s + 1) && 0 < cur < s <= cur + MAX_DIST
    requires c in Visited(prev, cur, Limit(s), n)
    ensures 0 < c <= cur && s <= c + MAX_DIST && KeyAt(w, c) == KeyAt(w, cur)
    ensures Between(w, c, cur + 1, KeyAt(w, c)) < n
    decreases n
  {
    hide KeyAt, Slot, Links;
    if c != cur {
      hide Between;
      LinkOf(w, prev, s, cur);
      VisitedMeans(w, prev, s, prev[Slot(cur)], n - 1, c);
    }
  }

  lemma VisitedStep(prev: seq<nat>, cur: nat, limit: nat, n: nat, done: seq<nat>)
    requires |prev| == WSIZE && n > 0
    ensures done + Visited(prev, cur, limit, n)
         == (done + [cur]) + (if prev[Slot(cur)] > limit then Visited(prev, prev[Slot(cur)], limit, n - 1) else [])
  {
  }

  lemma VisitedFirst(prev: seq<nat>, cur: nat, limit: nat, n: nat)
    requires |prev| == WSIZE && n > 0
    ensures cur in Visited(prev, cur, limit, n)
  {
  }

  lemma NoneVisited(prev: seq<nat>, cur: nat, limit: nat)
    requires |prev| == WSIZE
    ensures Visited(prev, cur, limit, 0) == []
  {
  }
}
