/** deflate of gzip.c: lazy matching over the sliding window. */
module Deflate {
  import opened Bits
  import opened Lz77
  import opened DeflateTables
  import opened Inflate
  import opened RollingHash
  import opened HashChains
  import opened LazyMatch
  import opened SlidingWindow
  import opened WindowMatch
  import opened BitWriter
  import opened TokenBuffer
  import opened BlockEncoder
  import opened BlockStream

  /** The window is in order, and `n` strings are inserted. */
  ghost predicate Ordered(m: Window, n: nat)
    reads m`strstart, m`lookahead, m`all, m`base, m`insH, m.window, m.prev, m.head
  {
    && m.Shape() && m.Text() && n < m.window.Length - 1 && n <= WINDOW_SIZE && m.Chains(n)
    && Primed(m.insH, m.window[n], m.window[n + 1]) && (m.base > 0 ==> m.strstart >= MAX_DIST)
  }

  /** There is enough lookahead, or the end of the input is known. */
  ghost predicate Supplied(m: Window)
    reads m`eofile, m`strstart, m`lookahead
  {
    if m.eofile then m.strstart + m.lookahead <= WINDOW_SIZE - 2 else m.lookahead >= MIN_LOOKAHEAD
  }

  /** Before the end of the input is known, the assertion of longest_match holds and it stays inside the window. */
  lemma SuppliedIsInside(m: Window, hashHead: nat)
    requires m.Shape() && m.Text() && Supplied(m) && !m.eofile && m.prevLength < MAX_MATCH
    ensures m.strstart <= WINDOW_SIZE - MIN_LOOKAHEAD
    ensures Inside(m.window[..], m.prev[..], m.strstart, m.prevLength, hashHead)
  {
    hide Inside;
    EnoughIsInside(m.window[..], m.prev[..], m.strstart, m.prevLength, hashHead);
  }

  lemma WindowHolds(m: Window)
    requires Ordered(m, m.strstart + 1) && m.strstart < WINDOW_SIZE && m.lookahead > 0
    ensures Holds(m.window[..], m.all, m.base, m.strstart, m.lookahead)
    ensures Links(m.window[..], m.prev[..], m.strstart + 1)
  {
    hide Links, Heads, Primed;
  }

  /** Looks for a match of the current string that is longer than the previous one: finds what a search on the input
      should find. */
  method FindMatch(m: Window, hashHead: nat) returns (matchLength: nat)
    requires Ordered(m, m.strstart + 1) && m.strstart < WINDOW_SIZE && m.lookahead > 0 && m.prevLength >= 1
    requires Latest(m.window[..], hashHead, m.strstart, m.HashAt(m.strstart))
    modifies m`matchStart
    ensures 1 <= matchLength <= MAX_MATCH
    ensures Found(m.all, m.base + m.strstart, m.prevLength, matchLength, m.base + m.matchStart)
  {
    hide Links, Heads, KeyAt, Found, MatchLen, Visited, Beaten, Holds, Ordered;
    OrderedShape(m, m.strstart + 1);
    WindowHolds(m);
    HeadOf(m, hashHead);
    matchLength := MIN_MATCH - 1;
    if hashHead != 0 && m.prevLength < MAX_LAZY_MATCH && m.strstart - hashHead <= MAX_DIST {
      ghost var reach;
      matchLength, reach := m.LongestMatch(hashHead);
      SearchFound(m.window[..], m.prev[..], m.all, m.base, m.strstart, m.lookahead, hashHead, m.prevLength, matchLength,
                  m.matchStart);
      if matchLength > m.lookahead { matchLength := m.lookahead; }
      if matchLength == MIN_MATCH && m.strstart - m.matchStart > TOO_FAR { matchLength := matchLength - 1; }
    } else {
      NothingFound(m.window[..], m.prev[..], m.all, m.base, m.strstart, m.lookahead, hashHead, m.prevLength,
                   m.base + m.matchStart);
    }
  }

  lemma OrderedShape(m: Window, n: nat)
    requires Ordered(m, n)
    ensures m.Shape() && m.Text()
  {
  }

  lemma HeadOf(m: Window, hashHead: nat)
    requires m.Shape() && m.strstart < WINDOW_SIZE
    requires Latest(m.window[..], hashHead, m.strstart, m.HashAt(m.strstart))
    ensures hashHead == 0 || (0 < hashHead < m.strstart && m.HashAt(hashHead) == m.HashAt(m.strstart))
  {
    hide KeyAt;
  }

  /** Moves to the end of the match that starts one byte back, inserting the strings in it. */
  method SkipMatch(m: Window)
    requires Ordered(m, m.strstart + 1) && MIN_MATCH <= m.prevLength <= m.lookahead + 1
    modifies m`lookahead, m`prevLength, m`strstart, m`insH, m.prev, m.head
    ensures Ordered(m, m.strstart) && m.strstart == old(m.strstart + m.prevLength - 1)
    ensures m.lookahead == old(m.lookahead - (m.prevLength - 1))
  {
    hide Primed, Hash3, Slot, Window.Chains, Latest, KeyAt;
    ghost var s, len, end := m.strstart, m.prevLength, m.strstart + m.lookahead;
    m.lookahead := m.lookahead - (m.prevLength - 1);
    m.prevLength := m.prevLength - 2;
    while true
      invariant 1 <= m.prevLength && m.strstart + m.prevLength == s + len - 2 && m.strstart >= s
      invariant m.lookahead == end - s - (len - 1)
      invariant m.Chains(m.strstart + 1) && Primed(m.insH, m.window[m.strstart + 1], m.window[m.strstart + 2])
      decreases m.prevLength
    {
      m.strstart := m.strstart + 1;
      var _ := m.InsertString(m.strstart);
      m.prevLength := m.prevLength - 1;
      if m.prevLength == 0 { break; }
    }
    m.strstart := m.strstart + 1;
  }

  /** Reads until there is enough lookahead or the input ends. */
  method Refill(m: Window, src: Input, ghost limits: seq<nat>)
    requires Ordered(m, m.strstart) && src.Valid() && m.all == src.data[..src.pos]
    requires (m.lookahead >= 2 || m.eofile) && EndKnown(m, src, limits)
    requires m.eofile ==> m.strstart + m.lookahead <= WINDOW_SIZE - 2
    modifies m`strstart, m`matchStart, m`blockStart, m`base, m`lookahead, m`eofile, m`all, m.window, m.prev, m.head, src
    ensures Ordered(m, m.strstart) && Supplied(m) && src.Valid() && m.all == src.data[..src.pos] && old(m.all) <= m.all
    ensures m.base + m.strstart == old(m.base + m.strstart) && m.base + m.matchStart == old(m.base + m.matchStart)
    ensures m.base + m.blockStart == old(m.base + m.blockStart) && (m.strstart == 0 ==> old(m.strstart) == 0)
    ensures EndKnown(m, src, limits) && (old(m.eofile) ==> m.all == old(m.all))
  {
    hide Primed, Hash3, Slot;
    while m.lookahead < MIN_LOOKAHEAD && !m.eofile
      invariant old(m.eofile) ==> m.eofile && m.all == old(m.all)
      invariant Ordered(m, m.strstart) && src.Valid() && m.all == src.data[..src.pos] && old(m.all) <= m.all
      invariant m.base + m.strstart == old(m.base + m.strstart) && m.base + m.matchStart == old(m.base + m.matchStart)
      invariant m.base + m.blockStart == old(m.base + m.blockStart) && (m.strstart == 0 ==> old(m.strstart) == 0)
      invariant (m.lookahead >= 2 || m.eofile) && EndKnown(m, src, limits)
      invariant m.eofile ==> m.strstart + m.lookahead <= WINDOW_SIZE - 2
      decreases if m.eofile then 0 else 1, MIN_LOOKAHEAD - m.lookahead
    {
      ghost var left := src.limits;
      m.FillWindow(src);
      assert left != [] ==> left[0] in left && forall x :: x in left[1..] ==> x in left;
    }
  }

  /** Reads stay within `limits`; when the end of the input is found, all data is read unless some read gave nothing. */
  ghost predicate EndKnown(m: Window, src: Input, limits: seq<nat>)
    reads m`eofile, src
  {
    && (forall x :: x in src.limits ==> x in limits)
    && (m.eofile ==> src.pos == |src.data| || 0 in limits)
  }

  /** The window shares nothing with the encoder. */
  ghost predicate Apart(m: Window, e: Encoder) {
    m.Shape() && {m, m.window, m.prev, m.head} !! e.Repr()
  }

  lemma PartsOnly(e: Encoder)
    ensures e.Parts() <= e.Repr() && forall o :: o in e.Repr() ==> allocated(o)
  {
  }

  lemma WindowText(m: Window, from: nat)
    requires m.Shape() && m.Text() && from <= m.strstart
    ensures m.window[from..m.strstart] == m.all[m.base + from..m.base + m.strstart]
  {
  }

  /** Ends the block at the current position. */
  method FlushHere(m: Window, e: Encoder, ghost head: seq<bool>)
    requires Apart(m, e) && m.Text() && m.strstart < WINDOW_SIZE
    requires Encoded(e, m.all, m.base + m.blockStart, m.base + m.strstart, head)
    modifies m`blockStart, e.Parts()
    ensures Encoded(e, m.all, m.base + m.blockStart, m.base + m.strstart, head) && e.tb.tokens == []
    ensures m.blockStart == m.strstart && e.log == old(e.log)
  {
    hide Encoder.Valid, Decoded, Expand, Counts, Encoder.Parts, Encoder.Repr;
    PartsOnly(e);
    var buf: Option<seq<byte>> := None;
    if m.blockStart >= 0 {
      WindowText(m, m.blockStart);
      buf := Some(m.window[m.blockStart..m.strstart]);
    }
    EndBlock(e, buf, m.strstart - m.blockStart, m.all, m.base + m.blockStart, m.base + m.strstart, head);
    m.blockStart := m.strstart;
  }

  /** Outputs the match found at the previous position. */
  method EmitMatch(m: Window, e: Encoder, prevMatch: int, ghost head: seq<bool>)
    requires Apart(m, e) && Ordered(m, m.strstart + 1) && m.strstart >= 1
    requires Repeats(m.all, m.base + prevMatch, m.base + m.strstart - 1, m.prevLength)
    requires Encoded(e, m.all, m.base + m.blockStart, m.base + m.strstart - 1, head) && |e.tb.tokens| + 1 < LIT_BUFSIZE
    requires Supplied(m)
    modifies m`blockStart, m`lookahead, m`prevLength, m`strstart, m`insH, m.prev, m.head, e.Parts()
    ensures Ordered(m, m.strstart)
    ensures Encoded(e, m.all, m.base + m.blockStart, m.base + m.strstart, head) && |e.tb.tokens| + 1 < LIT_BUFSIZE
    ensures m.strstart > old(m.strstart) && m.strstart + m.lookahead == old(m.strstart + m.lookahead)
    ensures m.lookahead + 257 >= old(m.lookahead) && m.strstart == old(m.strstart - 1 + m.prevLength)
    ensures e.log == old(e.log) + [Match(old(m.prevLength), old(m.strstart) - 1 - prevMatch)]
  {
    hide Encoded, Ordered, TokenFits, Repeats, Encoder.Parts, Encoder.Repr;
    PartsOnly(e);
    var dist := m.strstart - 1 - prevMatch;
    RepeatsFits(m.all, m.base + prevMatch, m.base + m.strstart - 1, m.prevLength);
    assert (m.base + m.strstart - 1) - (m.base + prevMatch) == dist;
    ghost var end := m.base + m.strstart - 1 + m.prevLength;
    EncodedBounds(e, m.all, m.base + m.blockStart, m.base + m.strstart - 1, head);
    MatchWithin(m, prevMatch);
    var flush := AddToken(e, dist, m.prevLength - MIN_MATCH, m.strstart - m.blockStart,
                          m.all, m.base + m.blockStart, m.base + m.strstart - 1, head);
    assert Encoded(e, m.all, m.base + m.blockStart, end, head);
    SkipMatch(m);
    assert Encoded(e, m.all, m.base + m.blockStart, end, head) && end == m.base + m.strstart;
    if flush {
      OrderedText(m, m.strstart);
      FlushHere(m, e, head);
    }
  }

  lemma RepeatsFits(all: seq<byte>, from: int, at: int, len: nat)
    requires Repeats(all, from, at, len)
    ensures 1 <= at - from <= MAX_DIST && MIN_MATCH <= len <= MAX_MATCH && 0 <= at
    ensures TokenFits(all, at, TokenFor(at - from, len - MIN_MATCH))
    ensures TokenFor(at - from, len - MIN_MATCH) == Match(len, at - from)
  {
  }

  lemma EncodedBounds(e: Encoder, all: seq<byte>, bs: int, done: int, head: seq<bool>)
    requires Encoded(e, all, bs, done, head)
    ensures 0 <= bs <= done <= |all|
  {
  }

  lemma MatchWithin(m: Window, prevMatch: int)
    requires Ordered(m, m.strstart + 1) && Repeats(m.all, m.base + prevMatch, m.base + m.strstart - 1, m.prevLength)
    ensures MIN_MATCH <= m.prevLength <= m.lookahead + 1 && m.strstart + m.lookahead <= WINDOW_SIZE
  {
  }

  lemma OrderedText(m: Window, n: nat)
    requires Ordered(m, n)
    ensures m.Shape() && m.Text()
  {
  }

  /** Moves on by one byte. */
  method Advance(m: Window)
    requires Ordered(m, m.strstart + 1) && m.lookahead > 0
    modifies m`strstart, m`lookahead
    ensures Ordered(m, m.strstart) && m.strstart == old(m.strstart) + 1 && m.lookahead == old(m.lookahead) - 1
  {
    hide Primed, Window.Chains;
    m.strstart := m.strstart + 1;
    m.lookahead := m.lookahead - 1;
  }

  /** Outputs the byte at the previous position. */
  method TallyByte(m: Window, e: Encoder, ghost head: seq<bool>) returns (flush: bool)
    requires Apart(m, e) && m.Text() && 1 <= m.strstart <= WINDOW_SIZE
    requires Encoded(e, m.all, m.base + m.blockStart, m.base + m.strstart - 1, head) && |e.tb.tokens| + 1 < LIT_BUFSIZE
    modifies e.Parts()
    ensures Encoded(e, m.all, m.base + m.blockStart, m.base + m.strstart, head)
    ensures !flush ==> |e.tb.tokens| + 1 < LIT_BUFSIZE
    ensures e.log == old(e.log) + [Literal(m.all[m.base + m.strstart - 1])]
  {
    hide Encoded, Encoder.Parts, Encoder.Repr;
    PartsOnly(e);
    EncodedBounds(e, m.all, m.base + m.blockStart, m.base + m.strstart - 1, head);
    assert m.window[m.strstart - 1] == m.all[m.base + (m.strstart - 1)];
    flush := AddToken(e, 0, m.window[m.strstart - 1], m.strstart - m.blockStart, m.all, m.base + m.blockStart,
                      m.base + m.strstart - 1, head);
  }

  /** Outputs the byte at the previous position and moves on. */
  method EmitLiteral(m: Window, e: Encoder, ghost head: seq<bool>)
    requires Apart(m, e) && Ordered(m, m.strstart + 1) && m.strstart >= 1 && m.lookahead > 0
    requires Encoded(e, m.all, m.base + m.blockStart, m.base + m.strstart - 1, head) && |e.tb.tokens| + 1 < LIT_BUFSIZE
    modifies m`blockStart, m`lookahead, m`strstart, e.Parts()
    ensures Ordered(m, m.strstart)
    ensures Encoded(e, m.all, m.base + m.blockStart, m.base + m.strstart - 1, head) && |e.tb.tokens| + 1 < LIT_BUFSIZE
    ensures m.strstart == old(m.strstart) + 1 && m.lookahead == old(m.lookahead) - 1
    ensures e.log == old(e.log) + [Literal(m.all[m.base + m.strstart - 2])]
  {
    hide Encoded, Ordered, Encoder.Parts, Encoder.Repr;
    PartsOnly(e);
    OrderedText(m, m.strstart + 1);
    var flush := TallyByte(m, e, head);
    if flush { FlushHere(m, e, head); }
    Advance(m);
  }

  /** The state between two steps: `avail` says that the byte before the current one waits, with a match of
      `matchLength` bytes. */
  ghost predicate Invariant(m: Window, e: Encoder, avail: bool, matchLength: nat, head: seq<bool>, found: seq<nat>)
    reads m, m.window, m.prev, m.head, e.Repr()
  {
    && Apart(m, e) && Ordered(m, m.strstart) && 1 <= matchLength <= MAX_MATCH && (avail ==> m.strstart >= 1)
    && Lawful(m.all, e.log, found, m.base + m.strstart, avail, matchLength, m.base + m.matchStart)
    && Encoded(e, m.all, m.base + m.blockStart, m.base + m.strstart - (if avail then 1 else 0), head)
    && |e.tb.tokens| + 1 < LIT_BUFSIZE
  }

  /** Inserts the current string and searches for a match longer than `oldLength`. */
  method Search(m: Window, oldLength: nat) returns (matchLength: nat)
    requires Ordered(m, m.strstart) && Supplied(m) && m.lookahead > 0 && oldLength >= 1
    modifies m`prevLength, m`matchStart, m`insH, m.prev, m.head
    ensures Ordered(m, m.strstart + 1) && m.strstart + m.lookahead <= WINDOW_SIZE
    ensures m.prevLength == oldLength && 1 <= matchLength <= MAX_MATCH
    ensures Found(m.all, m.base + m.strstart, oldLength, matchLength, m.base + m.matchStart)
  {
    hide Primed, Window.Chains, Window.HashAt, Latest, Found;
    var hashHead := m.InsertString(m.strstart);
    m.prevLength := oldLength;
    matchLength := FindMatch(m, hashHead);
  }

  /** One round of the main loop, up to refilling the window: a match that waits goes out exactly if none longer is
      found at the next byte, otherwise the byte does. */
  method Step(m: Window, e: Encoder, avail: bool, oldLength: nat, ghost head: seq<bool>, ghost found: seq<nat>)
    returns (matchAvailable: bool, matchLength: nat, ghost found': seq<nat>)
    requires Invariant(m, e, avail, oldLength, head, found) && Supplied(m) && m.lookahead > 0
    modifies m`blockStart, m`lookahead, m`prevLength, m`strstart, m`matchStart, m`insH, m.prev, m.head, e.Parts()
    ensures Invariant(m, e, matchAvailable, matchLength, head, found')
    ensures m.strstart > old(m.strstart) && m.strstart + m.lookahead == old(m.strstart + m.lookahead)
    ensures (m.lookahead >= 2 || m.eofile) && (matchAvailable ==> m.strstart == old(m.strstart) + 1)
    ensures var q, dist := m.base + old(m.strstart), old(m.strstart - 1 - m.matchStart);
            if !avail then e.log == old(e.log) && matchAvailable
            else if !matchAvailable then
              oldLength >= MIN_MATCH && e.log == old(e.log) + [Match(oldLength, dist)] &&
                NoneLonger(m.all, q, oldLength)
            else
              && e.log == old(e.log) + [Literal(m.all[q - 1])]
              && (oldLength >= MIN_MATCH ==>
                 matchLength > oldLength && Best(m.all, q, oldLength, matchLength, m.base + m.matchStart))
  {
    hide Encoded, Encoder.Parts, Encoder.Repr, Ordered, Lawful, Found, NoneLonger, Best, Repeats;
    PartsOnly(e);
    OrderedLength(m, m.strstart);
    ghost var q, prevFrom := m.base + m.strstart, m.base + m.matchStart;
    matchAvailable, found' := avail, found;
    var prevMatch := m.matchStart;
    matchLength := Search(m, oldLength);
    if m.prevLength >= MIN_MATCH && matchLength <= m.prevLength {
      LawRepeats(m.all, e.log, found, q, avail, oldLength, prevFrom);
      LawMatch(m.all, e.log, found, q, oldLength, prevFrom, matchLength, m.base + m.matchStart);
      EmitMatch(m, e, prevMatch, head);
      matchAvailable, matchLength, found' := false, MIN_MATCH - 1, found + [oldLength];
    } else if matchAvailable {
      LawByte(m.all, e.log, found, q, oldLength, prevFrom, m.all[q - 1], matchLength, m.base + m.matchStart);
      EmitLiteral(m, e, head);
      found' := found + [oldLength];
    } else {
      LawWait(m.all, e.log, found, q, oldLength, prevFrom, matchLength, m.base + m.matchStart);
      matchAvailable := true;
      Advance(m);
    }
  }

  /** A window as it is before the first read. */
  ghost predicate Empty(m: Window)
    reads m, m.head
  {
    && m.Shape() && m.strstart == 0 && m.lookahead == 0 && m.blockStart == 0 && m.matchStart == 0 && !m.eofile
    && m.all == [] && m.base == 0
    && forall h :: 0 <= h < HASH_SIZE ==> m.head[h] == 0
  }

  /** Reads the first bytes and starts the hash key. */
  method LmInit(m: Window, src: Input, ghost limits: seq<nat>)
    requires Empty(m) && src.Valid() && src.pos == 0 && EndKnown(m, src, limits)
    modifies m`lookahead, m`eofile, m`all, m`insH, m`strstart, m`matchStart, m`blockStart, m`base, m.window, m.prev,
             m.head, src
    ensures Started(m, src, limits)
  {
    hide Primed, Hash3, Slot;
    ghost var left := src.limits;
    m.ReadMore(src, WINDOW_SIZE);
    assert left != [] ==> left[0] in left && forall x :: x in left[1..] ==> x in left;
    if m.eofile { return; }
    assert m.Chains(0);
    FirstFill(m, src, limits);
    var h := Update(0, m.window[0]);
    h := Update(h, m.window[1]);
    PrimedAfter(0, m.window[0], m.window[1]);
    m.insH := h;
  }

  method FirstFill(m: Window, src: Input, ghost limits: seq<nat>)
    requires m.Shape() && m.Text() && m.Chains(0) && m.strstart == 0 && m.lookahead > 0 && m.base == 0
    requires m.blockStart == 0 && !m.eofile
    requires EndKnown(m, src, limits) && src.Valid() && m.all == src.data[..src.pos]
    modifies m`lookahead, m`eofile, m`all, m`strstart, m`matchStart, m`blockStart, m`base, m.window, m.prev, m.head, src
    ensures m.Text() && m.Chains(0) && m.strstart == 0 && m.lookahead > 0 && m.base == 0 && m.blockStart == 0
    ensures Supplied(m) && EndKnown(m, src, limits) && src.Valid() && m.all == src.data[..src.pos]
  {
    hide Primed, Hash3, Slot, Window.Chains;
    while m.lookahead < MIN_LOOKAHEAD && !m.eofile
      invariant m.Text() && m.Chains(0) && m.strstart == 0 && m.lookahead > 0 && m.base == 0 && m.blockStart == 0
      invariant EndKnown(m, src, limits) && src.Valid() && m.all == src.data[..src.pos]
      invariant m.eofile ==> m.lookahead <= WINDOW_SIZE - 2
      decreases if m.eofile then 0 else 1, MIN_LOOKAHEAD - m.lookahead
    {
      ghost var left := src.limits;
      m.FillWindow(src);
      assert left != [] ==> left[0] in left && forall x :: x in left[1..] ==> x in left;
    }
  }

  /** The main loop: tokens for all input. */
  method DeflateLoop(m: Window, e: Encoder, src: Input, ghost limits: seq<nat>, ghost head: seq<bool>)
    returns (matchAvailable: bool, ghost found: seq<nat>, ghost len: nat, ghost from: int)
    requires Invariant(m, e, false, MIN_MATCH - 1, head, []) && Supplied(m) && EndKnown(m, src, limits)
    requires src !in e.Repr() && src.Valid() && m.all == src.data[..src.pos]
    modifies m, m.window, m.prev, m.head, src, e.Parts()
    ensures m.Text() && m.lookahead == 0 && m.strstart <= WINDOW_SIZE - 2 && EndKnown(m, src, limits) && m.eofile
    ensures src.Valid() && m.all == src.data[..src.pos]
    ensures Encoded(e, m.all, m.base + m.blockStart, |m.all| - (if matchAvailable then 1 else 0), head)
    ensures |e.tb.tokens| + 1 < LIT_BUFSIZE
    ensures matchAvailable ==> m.strstart >= 1
    ensures Lawful(m.all, e.log, found, |m.all|, matchAvailable, len, from)
  {
    hide Encoded, Encoder.Parts, Encoder.Repr, Ordered, Lawful;
    PartsOnly(e);
    matchAvailable, found := false, [];
    var matchLength: nat := MIN_MATCH - 1;
    while m.lookahead != 0
      invariant Invariant(m, e, matchAvailable, matchLength, head, found) && Supplied(m) && EndKnown(m, src, limits)
      invariant src.Valid() && m.all == src.data[..src.pos]
      decreases |src.data| - (m.base + m.strstart)
    {
      OrderedLength(m, m.strstart);
      matchAvailable, matchLength, found := Round(m, e, src, matchAvailable, matchLength, limits, head, found);
    }
    OrderedLength(m, m.strstart);
    len, from := matchLength, m.base + m.matchStart;
  }

  lemma OrderedLength(m: Window, n: nat)
    requires Ordered(m, n)
    ensures m.Shape() && m.Text() && |m.all| == m.base + m.strstart + m.lookahead
  {
  }

  /** One round of the main loop. */
  method Round(m: Window, e: Encoder, src: Input, avail: bool, oldLength: nat, ghost limits: seq<nat>,
               ghost head: seq<bool>, ghost found: seq<nat>)
    returns (matchAvailable: bool, matchLength: nat, ghost found': seq<nat>)
    requires Invariant(m, e, avail, oldLength, head, found) && Supplied(m) && EndKnown(m, src, limits)
    requires src !in e.Repr() && m.lookahead > 0
    requires src.Valid() && m.all == src.data[..src.pos]
    modifies m, m.window, m.prev, m.head, src, e.Parts()
    ensures Invariant(m, e, matchAvailable, matchLength, head, found') && Supplied(m) && EndKnown(m, src, limits)
    ensures src.Valid() && m.all == src.data[..src.pos]
    ensures m.base + m.strstart > old(m.base + m.strstart)
  {
    hide Encoded, Encoder.Parts, Encoder.Repr, Ordered, Lawful, NoneLonger, Best;
    PartsOnly(e);
    OrderedLength(m, m.strstart);
    ghost var q, log := m.base + m.strstart, e.log;
    LawLength(m.all, log, found, q, avail, oldLength, m.base + m.matchStart);
    matchAvailable, matchLength, found' := Step(m, e, avail, oldLength, head, found);
    assert e.log == log || (|e.log| == |log| + 1 && e.log[..|log|] == log);
    LastStart(e.log, log);
    Reload(m, e, src, matchAvailable, matchLength, limits, head, found');
  }

  /** Refills the window between two steps: reading on changes nothing of what is done. */
  method Reload(m: Window, e: Encoder, src: Input, avail: bool, matchLength: nat, ghost limits: seq<nat>,
                ghost head: seq<bool>, ghost found: seq<nat>)
    requires Invariant(m, e, avail, matchLength, head, found) && (m.lookahead >= 2 || m.eofile)
    requires m.eofile ==> m.strstart + m.lookahead <= WINDOW_SIZE - 2
    requires !m.eofile ==> (e.log != [] ==> Length(e.log[..|e.log| - 1]) + 1 + MAX_MATCH <= |m.all|)
    requires !m.eofile && avail ==> m.base + m.strstart - 1 + MAX_MATCH <= |m.all|
    requires src.Valid() && m.all == src.data[..src.pos] && src !in e.Repr() && EndKnown(m, src, limits)
    modifies m`strstart, m`matchStart, m`blockStart, m`base, m`lookahead, m`eofile, m`all, m.window, m.prev, m.head, src
    ensures Invariant(m, e, avail, matchLength, head, found) && Supplied(m) && EndKnown(m, src, limits)
    ensures src.Valid() && m.all == src.data[..src.pos] && m.base + m.strstart == old(m.base + m.strstart)
  {
    hide Encoded, Encoder.Parts, Encoder.Repr, Ordered, Lawful;
    PartsOnly(e);
    ghost var all, bs: int := m.all, m.base + m.blockStart;
    ghost var done, from: int := m.base + m.strstart - (if avail then 1 else 0), m.base + m.matchStart;
    Refill(m, src, limits);
    EncodedMore(e, all, m.all, bs, done, head);
    if all != m.all { LawMore(all, m.all, e.log, found, m.base + m.strstart, avail, matchLength, from); }
  }

  lemma LawLength(all: seq<byte>, ts: seq<Token>, found: seq<nat>, q: nat, avail: bool, len: nat, from: int)
    requires Lawful(all, ts, found, q, avail, len, from)
    ensures Length(ts) == q - (if avail then 1 else 0)
  {
  }

  /** The last token starts where the tokens before it end. */
  lemma LastStart(ts: seq<Token>, before: seq<Token>)
    requires ts == before || (|ts| == |before| + 1 && ts[..|before|] == before)
    ensures ts != [] ==> Length(ts[..|ts| - 1]) <= Length(before)
  {
  }

  /** The window holds the first bytes of the input. */
  ghost predicate Started(m: Window, src: Input, limits: seq<nat>)
    reads m, m.window, m.prev, m.head, src
  {
    && m.Shape() && m.Text() && Supplied(m) && EndKnown(m, src, limits) && src.Valid() && m.all == src.data[..src.pos]
    && (m.lookahead > 0 ==> Ordered(m, 0)) && m.strstart == 0 && m.base == 0 && m.blockStart == 0
  }

  /** Outputs the byte that is still waiting, and the last block. */
  method Finish(m: Window, e: Encoder, matchAvailable: bool, ghost head: seq<bool>, ghost found: seq<nat>,
                ghost len: nat, ghost from: int)
    returns (r: nat, ghost end: nat, ghost found': seq<nat>)
    requires Apart(m, e) && m.Shape() && m.Text() && m.lookahead == 0 && m.strstart <= WINDOW_SIZE - 2
    requires Encoded(e, m.all, m.base + m.blockStart, |m.all| - (if matchAvailable then 1 else 0), head)
    requires |e.tb.tokens| + 1 < LIT_BUFSIZE && (matchAvailable ==> m.strstart >= 1)
    requires Lawful(m.all, e.log, found, |m.all|, matchAvailable, len, from)
    modifies e.Parts()
    ensures e.out.Valid() && e.out.biValid == 0 && e.out.Sent() == BytesToBits(e.out.bytes)
    ensures end <= |e.out.Sent()| < end + 8 && head <= e.out.Sent()
    ensures Expand([], e.log) == Some(m.all) && Near(e.log)
    ensures Lazy(m.all, e.log, found') && Settled(e.log, found')
    ensures forall bits :: e.out.Sent() <= bits ==> DecodeBlocks(bits, |head|, []) == Good(m.all, end)
  {
    hide Encoded, Encoder.Parts, Encoder.Repr, Output.Valid, Output.Sent, BytesToBits, DecodeBlocks, Expand, Near, Lazy,
         Lawful, Settled;
    PartsOnly(e);
    EncodedBounds(e, m.all, m.base + m.blockStart, |m.all| - (if matchAvailable then 1 else 0), head);
    found' := if matchAvailable then found + [len] else found;
    if matchAvailable {
      LawLast(m.all, e.log, found, len, from, m.all[|m.all| - 1]);
      var _ := TallyByte(m, e, head);
    } else {
      LawDone(m.all, e.log, found, len, from);
    }
    EncodedBounds(e, m.all, m.base + m.blockStart, |m.all|, head);
    var buf: Option<seq<byte>> := None;
    if m.blockStart >= 0 {
      WindowText(m, m.blockStart);
      buf := Some(m.window[m.blockStart..m.strstart]);
    }
    LogReplays(e, m.all, m.base + m.blockStart, head);
    r, end := EndLastBlock(e, buf, m.strstart - m.blockStart, m.all, m.base + m.blockStart, head);
  }

  lemma LawDone(all: seq<byte>, ts: seq<Token>, found: seq<nat>, len: nat, from: int)
    requires Lawful(all, ts, found, |all|, false, len, from)
    ensures Lazy(all, ts, found) && Settled(ts, found)
  {
  }

  /** Compresses the input by the rule of lazy matching: whatever follows, a decoder that starts where the blocks start
      gets exactly the bytes read. */
  method DeflateAll(m: Window, e: Encoder, src: Input, ghost limits: seq<nat>)
    returns (r: nat, ghost end: nat, ghost found: seq<nat>)
    requires Apart(m, e) && Started(m, src, limits) && src !in e.Repr()
    requires e.Valid() && e.tb.tokens == [] && e.log == [] && Counts(e.compressedLen, |e.out.Sent()|, e.skip)
    modifies m, m.window, m.prev, m.head, src, e.Parts()
    ensures e.out.Valid() && e.out.biValid == 0 && e.out.Sent() == BytesToBits(e.out.bytes)
    ensures end <= |e.out.Sent()| < end + 8
    ensures src.Valid() && m.all == src.data[..src.pos] && (src.pos == |src.data| || 0 in limits)
    ensures Expand([], e.log) == Some(src.data[..src.pos]) && Near(e.log)
    ensures Lazy(src.data[..src.pos], e.log, found) && Settled(e.log, found)
    ensures old(e.out.Sent()) <= e.out.Sent()
    ensures forall bits :: e.out.Sent() <= bits ==>
            DecodeBlocks(bits, |old(e.out.Sent())|, []) == Good(src.data[..src.pos], end)
  {
    hide Encoded, Encoder.Parts, Encoder.Repr, Ordered, Encoder.Valid, Counts, Output.Valid, Output.Sent,
         BytesToBits, DecodeBlocks, Expand, Near, Lazy, Lawful, Settled;
    PartsOnly(e);
    ghost var head := e.out.Sent();
    NothingEncoded(e, m.all, head);
    LawStarts(m.all, m.base + m.matchStart);
    var matchAvailable := false;
    ghost var len, from: int := MIN_MATCH - 1, m.base + m.matchStart;
    found := [];
    if m.lookahead != 0 { matchAvailable, found, len, from := DeflateLoop(m, e, src, limits, head); }
    r, end, found := Finish(m, e, matchAvailable, head, found, len, from);
  }

  lemma LawStarts(all: seq<byte>, from: int)
    ensures Lawful(all, [], [], 0, false, MIN_MATCH - 1, from)
  {
  }

  lemma LogReplays(e: Encoder, all: seq<byte>, bs: int, head: seq<bool>)
    requires Encoded(e, all, bs, |all|, head)
    ensures Expand([], e.log) == Some(all) && Near(e.log)
  {
    assert all[..|all|] == all;
  }

  lemma NothingEncoded(e: Encoder, all: seq<byte>, head: seq<bool>)
    requires e.Valid() && e.tb.tokens == [] && e.log == [] && Counts(e.compressedLen, |e.out.Sent()|, e.skip)
    requires head == e.out.Sent()
    ensures Encoded(e, all, 0, 0, head)
  {
    hide Encoder.Valid, Counts, Output.Sent, DecodeBlocks;
    DecodedStart(e.out.Sent());
    assert all[..0] == [];
  }
}
