/** The sliding window and hash chains of gzip.c: fill_window, INSERT_STRING and longest_match. */
module SlidingWindow {
  import opened Bits
  import opened DeflateTables
  import opened RollingHash
  import opened Crc32
  import opened HashChains

  const NICE_MATCH := 258

  /** The input file: each read returns some of the bytes left, and none at the end or on an error. */
  class Input {
    const data: seq<byte>
    const table: seq<nat>
    var pos: nat
    /** How much each read gives at most. */
    var limits: seq<nat>
    var crc: nat
    /** The number of bytes read, a 32 bit counter. */
    var isize: nat

    ghost predicate Valid()
      reads this
    {
      pos <= |data| && |table| == 256 && crc == Register(table, ULONG_MAX, data[..pos]) && isize == pos % 0x1_0000_0000
    }

    constructor (data: seq<byte>, limits: seq<nat>, table: seq<nat>)
      requires |table| == 256
      ensures Valid() && this.data == data && this.limits == limits && this.table == table && pos == 0
    {
      this.data, this.limits, this.table, this.pos := data, limits, table, 0;
      crc, isize := ULONG_MAX, 0;
    }

    /** Reads up to `size` bytes, and updates the checksum and the size. */
    method Read(size: nat) returns (chunk: seq<byte>)
      requires Valid()
      modifies this
      ensures Valid() && old(pos) <= pos && chunk == data[old(pos)..pos] && |chunk| <= size
      ensures limits == if old(limits) == [] then [] else old(limits)[1..]
      ensures chunk == [] ==> size == 0 || pos == |data| || (old(limits) != [] && old(limits)[0] == 0)
    {
      hide Register;
      var n := |data| - pos;
      if size < n { n := size; }
      if limits != [] {
        if limits[0] < n { n := limits[0]; }
        limits := limits[1..];
      }
      chunk := data[pos..pos + n];
      if n == 0 { return; }
      crc := UpdCrc(table, crc, chunk);
      RegisterConcat(table, ULONG_MAX, data[..pos], chunk);
      assert data[..pos] + chunk == data[..pos + n];
      isize := (isize + n) % 0x1_0000_0000;
      pos := pos + n;
    }
  }

  class Window {
    /** The window; what lies behind it in memory, which the last comparisons may touch, is its last MAX_MATCH bytes. */
    const window: array<byte>
    const prev: array<nat>
    const head: array<nat>
    var strstart: nat
    var matchStart: int
    var lookahead: nat
    var prevLength: nat
    var insH: nat
    var blockStart: int
    var eofile: bool

    /** All bytes read so far. */
    ghost var all: seq<byte>
    /** The position in the input of the window's first byte. */
    ghost var base: nat

    constructor ()
      ensures Shape() && fresh(window) && fresh(prev) && fresh(head)
      ensures strstart == lookahead == 0 && matchStart == 0 && blockStart == 0 && !eofile && insH == 0
      ensures all == [] && base == 0
      ensures forall h :: 0 <= h < HASH_SIZE ==> head[h] == 0
    {
      window := new byte[WINDOW_SIZE + MAX_MATCH];
      prev := new nat[WSIZE];
      head := new nat[HASH_SIZE](_ => 0);
      strstart, matchStart, lookahead, prevLength, insH, blockStart, eofile := 0, 0, 0, 0, 0, 0, false;
      all, base := [], 0;
    }

    ghost predicate Shape() {
      window.Length == WINDOW_SIZE + MAX_MATCH && prev.Length == WSIZE && head.Length == HASH_SIZE && prev != head
    }

    /** The window holds the latest bytes of the input. */
    ghost predicate Text()
      requires Shape()
      reads this`strstart, this`lookahead, this`all, this`base, window
    {
      && strstart + lookahead <= WINDOW_SIZE && |all| == base + strstart + lookahead
      && forall i :: 0 <= i < strstart + lookahead ==> window[i] == all[base + i]
    }

    ghost function HashAt(p: nat): nat
      requires Shape() && p + 2 < window.Length
      reads window
    {
      KeyAt(window[..], p)
    }

    ghost predicate Chains(n: nat)
      requires Shape() && n <= WINDOW_SIZE
      reads window, prev, head
    {
      Heads(window[..], head[..], n) && Links(window[..], prev[..], n)
    }

    /** Inserts the string at `s` and returns the latest string with the same key. */
    method InsertString(s: nat) returns (matchHead: nat)
      requires Shape() && s < WINDOW_SIZE && Chains(s) && Primed(insH, window[s], window[s + 1])
      modifies this`insH, prev, head
      ensures Chains(s + 1) && Primed(insH, window[s + 1], window[s + 2])
      ensures Latest(window[..], matchHead, s, HashAt(s))
      ensures matchHead == old(head[HashAt(s)]) && head[HashAt(s)] == s && prev[Slot(s)] == matchHead
    {
      hide Hash3, Update, Primed, Latest, Slot;
      PrimedUpdate(insH, window[s], window[s + 1], window[s + 2]);
      insH := Update(insH, window[s + 2]);
      ghost var w, heads, links := window[..], head[..], prev[..];
      matchHead := head[insH];
      assert Latest(w, heads[insH], s, insH);
      HeadsInsert(w, heads, s);
      LinksInsert(w, links, s, matchHead);
      prev[Slot(s)] := matchHead;
      head[insH] := s;
      assert head[..] == heads[insH := s] && prev[..] == links[Slot(s) := matchHead];
    }

    /** Moves the links of both tables down with the window; links to strings that leave it become empty. */
    method SlideLinks()
      requires Shape()
      modifies prev, head
      ensures forall h :: 0 <= h < HASH_SIZE ==> head[h] == if old(head[h]) >= WSIZE then old(head[h]) - WSIZE else 0
      ensures forall i :: 0 <= i < WSIZE ==> prev[i] == if old(prev[i]) >= WSIZE then old(prev[i]) - WSIZE else 0
    {
      for n := 0 to HASH_SIZE
        invariant forall h :: 0 <= h < HASH_SIZE ==>
                  head[h] == if h < n &&
                    old(head[h]) >= WSIZE then old(head[h]) - WSIZE else if h < n then 0 else old(head[h])
        invariant forall i :: 0 <= i < WSIZE ==> prev[i] == old(prev[i])
      {
        var m := head[n];
        head[n] := if m >= WSIZE then m - WSIZE else 0;
      }
      for n := 0 to WSIZE
        invariant forall h :: 0 <= h < HASH_SIZE ==>
                  head[h] == if old(head[h]) >= WSIZE then old(head[h]) - WSIZE else 0
        invariant forall i :: 0 <= i < WSIZE ==>
                  prev[i] == if i < n &&
                    old(prev[i]) >= WSIZE then old(prev[i]) - WSIZE else if i < n then 0 else old(prev[i])
      {
        var m := prev[n];
        prev[n] := if m >= WSIZE then m - WSIZE else 0;
      }
    }

    /** Moves the upper half of the window to the lower one, and the positions in it with it. */
    method MoveDown()
      requires Shape() && Text() && strstart >= WSIZE && lookahead >= 2
      modifies this`strstart, this`matchStart, this`blockStart, this`base, window
      ensures strstart == old(strstart) - WSIZE && base == old(base) + WSIZE
      ensures matchStart == old(matchStart) - WSIZE && blockStart == old(blockStart) - WSIZE
      ensures Text() && forall i :: 0 <= i < WSIZE ==> window[i] == old(window[WSIZE + i])
    {
      forall i | 0 <= i < WSIZE { window[i] := window[WSIZE + i]; }
      matchStart := matchStart - WSIZE;
      strstart := strstart - WSIZE;
      blockStart := blockStart - WSIZE;
      base := base + WSIZE;
    }

    /** Makes room in the upper half of the window. */
    method Slide()
      requires Shape() && Text() && strstart >= WSIZE && lookahead >= 2 && Chains(strstart)
      modifies this`strstart, this`matchStart, this`blockStart, this`base, window, prev, head
      ensures strstart == old(strstart) - WSIZE && base == old(base) + WSIZE
      ensures matchStart == old(matchStart) - WSIZE && blockStart == old(blockStart) - WSIZE
      ensures Text() && Chains(strstart) && window[strstart] == old(window[strstart])
      ensures window[strstart + 1] == old(window[strstart + 1])
    {
      hide Heads, Links, Moved;
      ghost var n, w, heads, links := strstart, window[..], head[..], prev[..];
      MoveDown();
      ghost var v := window[..];
      assert forall i: nat :: i < WSIZE ==> v[i] == w[i + WSIZE];
      MovedBytes(w, v, n, WSIZE);
      SlideLinks();
      HeadsMove(w, v, heads, head[..], n, WSIZE);
      LinksMove(w, v, links, prev[..], n, WSIZE);
    }

    /** Reads more input into the window behind the bytes already there. */
    method ReadMore(src: Input, more: nat)
      requires Shape() && Text() && src.Valid() && all == src.data[..src.pos]
      requires more == WINDOW_SIZE - strstart - lookahead && more >= 2
      modifies this`lookahead, this`eofile, this`all, window, src
      ensures Text() && src.Valid() && all == src.data[..src.pos]
      ensures lookahead >= old(lookahead) && (eofile || lookahead > old(lookahead))
      ensures eofile && !old(eofile) ==>
              lookahead == old(lookahead) &&
                (src.pos == |src.data| || (old(src.limits) != [] && old(src.limits)[0] == 0))
      ensures old(eofile) ==> eofile
      ensures forall i :: 0 <= i < strstart + old(lookahead) ==> window[i] == old(window[i])
      ensures src.limits == if old(src.limits) == [] then [] else old(src.limits)[1..]
    {
      var chunk := src.Read(more);
      if chunk == [] {
        eofile := true;
      } else {
        ghost var end := strstart + lookahead;
        forall i | 0 <= i < |chunk| { window[strstart + lookahead + i] := chunk[i]; }
        all := all + chunk;
        lookahead := lookahead + |chunk|;
        assert all == src.data[..src.pos];
        forall i | 0 <= i < strstart + lookahead ensures window[i] == all[base + i] {
          if i >= end { assert window[i] == chunk[i - end]; }
        }
      }
    }

    /** Reading more leaves the chains as they are: their strings lie before the new bytes. */
    method ReadBehind(src: Input, more: nat)
      requires Shape() && Text() && Chains(strstart) && src.Valid() && all == src.data[..src.pos]
      requires more == WINDOW_SIZE - strstart - lookahead && more >= 2 && (strstart == 0 || lookahead >= 2)
      modifies this`lookahead, this`eofile, this`all, window, src
      ensures Text() && Chains(strstart) && src.Valid() && all == src.data[..src.pos] && old(all) <= all
      ensures lookahead >= old(lookahead) && (eofile || lookahead > old(lookahead))
      ensures eofile && !old(eofile) ==>
              lookahead == old(lookahead) &&
                (src.pos == |src.data| || (old(src.limits) != [] && old(src.limits)[0] == 0))
      ensures old(lookahead) >= 2 ==>
              window[strstart] == old(window[strstart]) && window[strstart + 1] == old(window[strstart + 1])
      ensures src.limits == if old(src.limits) == [] then [] else old(src.limits)[1..]
    {
      hide Heads, Links;
      ghost var end, w := strstart + lookahead, window[..];
      ReadMore(src, more);
      assert strstart > 0 ==> strstart + 1 < end;
      ChainsStay(w, window[..], head[..], prev[..], strstart);
    }

    /** Fills the window when the lookahead becomes insufficient. */
    method FillWindow(src: Input)
      requires Shape() && Text() && Chains(strstart) && src.Valid() && all == src.data[..src.pos]
      requires !eofile && lookahead < MIN_LOOKAHEAD && (strstart == 0 || lookahead >= 2)
      modifies this`strstart, this`matchStart, this`blockStart, this`base, this`lookahead, this`eofile, this`all,
               window, prev, head, src
      ensures Text() && Chains(strstart) && src.Valid() && all == src.data[..src.pos]
      ensures base + strstart == old(base + strstart) && base + matchStart == old(base + matchStart)
      ensures base + blockStart == old(base + blockStart)
      ensures base >= old(base) && old(all) <= all && (base > old(base) ==> strstart >= MAX_DIST)
      ensures lookahead >= old(lookahead) && (eofile || lookahead > old(lookahead))
      ensures eofile ==> strstart + lookahead <= WINDOW_SIZE - 2 && lookahead == old(lookahead)
      ensures eofile ==> src.pos == |src.data| || (old(src.limits) != [] && old(src.limits)[0] == 0)
      ensures old(lookahead) >= 2 ==>
              window[strstart] == old(window[strstart]) && window[strstart + 1] == old(window[strstart + 1])
      ensures src.limits == if old(src.limits) == [] then [] else old(src.limits)[1..]
      ensures strstart == 0 ==> old(strstart) == 0
    {
      hide Hash3, Slot, Chains;
      var more: int := (WINDOW_SIZE - lookahead - strstart) % 0x1_0000_0000;
      if more == 0xffff_ffff {
        more := more - 1;
      } else if strstart >= WSIZE + MAX_DIST {
        Slide();
        more := more + WSIZE;
      }
      ReadBehind(src, more);
    }

    /** Advances both pointers by up to eight bytes while the bytes are equal; `reach` is the last byte looked at. */
    method CompareEight(scan: nat, match_: nat) returns (s: nat, equal: bool, ghost reach: nat)
      requires Shape() && scan + 8 < window.Length && match_ <= scan
      ensures scan < s <= scan + 8 && (equal ==> s == scan + 8)
      ensures forall i :: scan < i < s ==> window[i] == window[i - scan + match_]
      ensures (equal <==> window[s] == window[s - scan + match_]) && reach == s
    {
      s, reach := scan, scan;
      var m := match_;
      for k := 0 to 8
        invariant s == scan + k && m == match_ + k && reach == s
        invariant forall i :: scan < i <= s ==> window[i] == window[i - scan + match_]
      {
        s, m := s + 1, m + 1;
        reach := s;
        if window[s] != window[m] { return s, false, reach; }
        assert forall i :: scan < i <= s ==> window[i] == window[i - scan + match_];
      }
      return s, true, reach;
    }

    /** The length of the match at `cur`, of which the first three bytes are known to be equal. */
    method Compare(cur: nat) returns (len: nat, ghost reach: nat)
      requires Shape() && strstart < WINDOW_SIZE && cur < strstart
      requires window[strstart] == window[cur] && window[strstart + 1] == window[cur + 1]
      requires window[strstart + 2] == window[cur + 2]
      ensures len == MatchLen(window[..], strstart, cur) && reach == strstart + len
    {
      hide Run;
      var strend := strstart + MAX_MATCH;
      var scan, match_ := strstart + 2, cur + 2;
      var equal := true;
      reach := strstart + 2;
      ghost var rounds: nat := 0;
      while equal && scan < strend
        invariant strstart + 2 <= scan <= strend && match_ == cur + (scan - strstart) && reach == scan
        invariant (equal ==> scan - strstart == 8 * rounds + 2)
        invariant equal ==> forall i :: strstart <= i <= scan ==> window[i] == window[i - strstart + cur]
        invariant !equal ==>
                  window[scan] != window[scan - strstart + cur] && forall i :: strstart <= i < scan ==>
                    window[i] == window[i - strstart + cur]
        decreases if equal then 1 else 0, strend - scan
      {
        var before := scan;
        scan, equal, reach := CompareEight(scan, match_);
        match_ := match_ + (scan - before);
        rounds := rounds + 1;
      }
      len := MAX_MATCH - (strend - scan);
      RunIs(window[..], strstart, cur, len);
    }

    /** The length of the match at `cur` if it is longer than `bestLen`, else at most `bestLen`. */
    method TryMatch(cur: nat, bestLen: nat, scanEnd1: byte, scanEnd: byte)
      returns (len: nat, ghost reach: nat)
      requires Shape() && strstart < WINDOW_SIZE && cur < strstart && HashAt(cur) == HashAt(strstart)
      requires 1 <= bestLen < MAX_MATCH && scanEnd1 == window[strstart + bestLen - 1]
      requires scanEnd == window[strstart + bestLen]
      ensures var n := MatchLen(window[..], strstart, cur); if n > bestLen then len == n else len <= bestLen
      ensures if len > bestLen then reach == strstart + len else reach <= strstart + bestLen
    {
      hide Hash3;
      MatchMeans(window[..], strstart, cur, bestLen);
      if window[cur + bestLen] != scanEnd || window[cur + bestLen - 1] != scanEnd1
         || window[cur] != window[strstart] || window[cur + 1] != window[strstart + 1]
      {
        return 0, strstart + bestLen;
      }
      HashDecides(window[cur], window[cur + 1], window[cur + 2], window[strstart + 2]);
      len, reach := Compare(cur);
    }

    /** Tries the string at `cur`, and keeps it if its match is longer. */
    method TryString(cur: nat, bestLen: nat, scanEnd1: byte, scanEnd: byte) returns (len: nat, ghost reach: nat)
      requires Shape() && strstart < WINDOW_SIZE && cur < strstart && HashAt(cur) == HashAt(strstart)
      requires 1 <= bestLen < MAX_MATCH && scanEnd1 == window[strstart + bestLen - 1]
      requires scanEnd == window[strstart + bestLen]
      modifies this`matchStart
      ensures bestLen <= len <= MAX_MATCH && Longest(window[..], strstart, cur, len)
      ensures matchStart == if len > bestLen then cur else old(matchStart)
      ensures len > bestLen ==> MatchLen(window[..], strstart, cur) == len && reach == strstart + len
      ensures len == bestLen ==> reach <= strstart + len
    {
      hide Hash3, MatchLen, HashAt;
      len, reach := TryMatch(cur, bestLen, scanEnd1, scanEnd);
      if len > bestLen { matchStart := cur; } else { len := bestLen; }
    }

    /** Searches a hash chain for a match longer than `prevLength`; sets `matchStart` to the nearest of the longest if
        there is one. The last byte looked at, `reach`, is the one behind the best match. */
    method LongestMatch(hashHead: nat) returns (bestLen: nat, ghost reach: nat)
      requires Shape() && strstart < WINDOW_SIZE && 1 <= prevLength < MAX_MATCH
      requires Links(window[..], prev[..], strstart + 1)
      requires 0 < hashHead < strstart <= hashHead + MAX_DIST && HashAt(hashHead) == HashAt(strstart)
      modifies this`matchStart
      ensures prevLength <= bestLen <= MAX_MATCH
      ensures bestLen == prevLength ==> matchStart == old(matchStart)
      ensures bestLen > prevLength ==>
              0 < matchStart < strstart <= matchStart + MAX_DIST &&
                MatchLen(window[..], strstart, matchStart) == bestLen
      ensures Beaten(window[..], strstart,
              Visited(prev[..], hashHead, Limit(strstart), ChainLength(prevLength)), bestLen,
                     bestLen > prevLength, matchStart)
      ensures bestLen > prevLength ==>
              matchStart in Visited(prev[..], hashHead, Limit(strstart), ChainLength(prevLength))
      ensures reach == strstart + bestLen
    {
      hide KeyAt, MatchLen, Slot, Visited, Longest, Links, Beaten;
      ghost var w: seq<byte>, links: seq<nat> := window[..], prev[..];
      ghost var all := Visited(links, hashHead, Limit(strstart), ChainLength(prevLength));
      var chainLength := MAX_CHAIN_LENGTH;
      var cur := hashHead;
      bestLen := prevLength;
      var limit := Limit(strstart);
      var scanEnd1, scanEnd := window[strstart + bestLen - 1], window[strstart + bestLen];
      reach := strstart + bestLen;
      if prevLength >= GOOD_MATCH { chainLength := chainLength / 4; }
      ghost var done: seq<nat> := [];
      NoneBeaten(w, strstart, bestLen, matchStart);
      while true
        invariant prevLength <= bestLen < MAX_MATCH && chainLength >= 1
        invariant scanEnd1 == window[strstart + bestLen - 1] && scanEnd == window[strstart + bestLen]
        invariant 0 < cur < strstart <= cur + MAX_DIST && HashAt(cur) == HashAt(strstart)
        invariant bestLen == prevLength ==> matchStart == old(matchStart)
        invariant bestLen > prevLength ==>
                  cur < matchStart < strstart <= matchStart + MAX_DIST && MatchLen(w, strstart, matchStart) == bestLen
        invariant bestLen > prevLength ==> matchStart in done
        invariant reach == strstart + bestLen
        invariant all == done + Visited(links, cur, limit, chainLength)
        invariant Beaten(w, strstart, done, bestLen, bestLen > prevLength, matchStart)
        invariant forall c :: c in done ==> cur < c
        decreases chainLength
      {
        var tried := bestLen;
        ghost var far, found, at := 0, bestLen > prevLength, matchStart;
        VisitedFirst(links, cur, limit, chainLength);
        bestLen, far := TryString(cur, bestLen, scanEnd1, scanEnd);
        if far > reach { reach := far; }
        TriedOne(w, strstart, done, cur, tried, bestLen, found, at);
        if bestLen > tried {
          if bestLen >= NICE_MATCH {
            RestBeaten(w, links, strstart, cur, chainLength, done);
            return;
          }
          scanEnd1, scanEnd := window[strstart + bestLen - 1], window[strstart + bestLen];
        }
        VisitedStep(links, cur, limit, chainLength, done);
        LinkOf(w, links, strstart, cur);
        done := done + [cur];
        assert done + [] == done;
        cur := prev[Slot(cur)];
        if cur <= limit { return; }
        chainLength := chainLength - 1;
        if chainLength == 0 {
          NoneVisited(links, cur, limit);
          return;
        }
      }
    }
  }

  /** No string in `tried` has a match longer than `n`; if one is found at `at`, no nearer one has a match as long. */
  ghost predicate Beaten(w: seq<byte>, s: nat, tried: seq<nat>, n: nat, found: bool, at: int) {
    forall c :: c in tried ==> Longest(w, s, c, if found && c > at && n > 0 then n - 1 else n)
  }

  /** The number of equal bytes from offset `k` on at `a` and `b`, counted up to MAX_MATCH. */
  ghost function Run(w: seq<byte>, a: nat, b: nat, k: nat): (r: nat)
    requires k <= MAX_MATCH && a + MAX_MATCH <= |w| && b + MAX_MATCH <= |w|
    ensures k <= r <= MAX_MATCH
    decreases MAX_MATCH - k
  {
    if k == MAX_MATCH || w[a + k] != w[b + k] then k else Run(w, a, b, k + 1)
  }

  /** The length of the match between the strings at `a` and `b`, at most MAX_MATCH. */
  ghost function MatchLen(w: seq<byte>, a: nat, b: nat): (r: nat)
    requires a + MAX_MATCH <= |w| && b + MAX_MATCH <= |w|
    ensures r <= MAX_MATCH
  {
    Run(w, a, b, 0)
  }

  ghost predicate Same(w: seq<byte>, a: nat, b: nat, i: nat) { a + i < |w| && b + i < |w| && w[a + i] == w[b + i] }

  lemma {:induction false} RunFrom(w: seq<byte>, a: nat, b: nat, k: nat, n: nat)
    requires k <= n <= MAX_MATCH && a + MAX_MATCH <= |w| && b + MAX_MATCH <= |w|
    requires (forall i :: k <= i < n ==> Same(w, a, b, i)) && (n < MAX_MATCH ==> !Same(w, a, b, n))
    ensures Run(w, a, b, k) == n
    decreases n - k
  {
    if k < n {
      assert Same(w, a, b, k);
      RunFrom(w, a, b, k + 1, n);
    }
  }

  lemma RunIs(w: seq<byte>, a: nat, b: nat, n: nat)
    requires n <= MAX_MATCH && a + MAX_MATCH <= |w| && b + MAX_MATCH <= |w|
    requires (forall j :: a <= j < a + n ==> w[j] == w[j - a + b]) && (n < MAX_MATCH ==> w[a + n] != w[b + n])
    ensures MatchLen(w, a, b) == n
  {
    forall i: nat | i < n ensures Same(w, a, b, i) { assert w[a + i] == w[a + i - a + b]; }
    RunFrom(w, a, b, 0, n);
  }

  lemma {:induction false} RunMeans(w: seq<byte>, a: nat, b: nat, k: nat)
    requires k <= MAX_MATCH && a + MAX_MATCH <= |w| && b + MAX_MATCH <= |w|
    ensures forall i :: k <= i < Run(w, a, b, k) ==> Same(w, a, b, i)
    decreases MAX_MATCH - k
  {
    if k < MAX_MATCH && w[a + k] == w[b + k] { RunMeans(w, a, b, k + 1); }
  }

  /** No match longer than `n` starts at `c`. */
  ghost predicate Longest(w: seq<byte>, s: nat, c: nat, n: nat) {
    s + MAX_MATCH <= |w| && c + MAX_MATCH <= |w| ==> MatchLen(w, s, c) <= n
  }

  lemma NoneBeaten(w: seq<byte>, s: nat, n: nat, at: int)
    ensures Beaten(w, s, [], n, false, at)
  {
  }

  /** After trying `cur`, the best length so far covers it and all strings tried before. */
  lemma TriedOne(w: seq<byte>, s: nat, done: seq<nat>, cur: nat, tried: nat, best: nat, found: bool, at: int)
    requires Beaten(w, s, done, tried, found, at) && tried <= best && Longest(w, s, cur, best) && (found ==> cur <= at)
    requires forall c :: c in done ==> cur < c
    ensures if best > tried then Beaten(w, s, done + [cur], best, true, cur)
            else Beaten(w, s, done + [cur], best, found, at)
  {
    hide MatchLen;
    forall c | c in done + [cur]
      ensures if best > tried then Longest(w, s, c, if c > cur then best - 1 else best)
              else Longest(w, s, c, if found && c > at && best > 0 then best - 1 else best)
    {
      if c in done { assert Longest(w, s, c, if found && c > at && tried > 0 then tried - 1 else tried); }
    }
  }

  /** No match is longer than MAX_MATCH, so the rest of the chain need not be tried. */
  lemma RestBeaten(w: seq<byte>, links: seq<nat>, s: nat, cur: nat, n: nat, done: seq<nat>)
    requires s + 2 < |w| && |links| == WSIZE && Links(w, links, s + 1) && 0 < cur < s <= cur + MAX_DIST
    requires Beaten(w, s, done + [cur], MAX_MATCH, true, cur)
    ensures Beaten(w, s, done + Visited(links, cur, Limit(s), n), MAX_MATCH, true, cur)
  {
    hide MatchLen, Links, KeyAt, Visited;
    var rest := Visited(links, cur, Limit(s), n);
    forall c | c in done + rest ensures Longest(w, s, c, if c > cur then MAX_MATCH - 1 else MAX_MATCH) {
      if c in rest { VisitedMeans(w, links, s, cur, n, c); } else { assert c in done + [cur]; }
    }
  }

  lemma MatchMeans(w: seq<byte>, a: nat, b: nat, n: nat)
    requires a + MAX_MATCH <= |w| && b + MAX_MATCH <= |w| && 1 <= n < MAX_MATCH
    ensures MatchLen(w, a, b) > n ==>
            w[a] == w[b] && w[a + 1] == w[b + 1] && w[a + n - 1] == w[b + n - 1] && w[a + n] == w[b + n]
  {
    RunMeans(w, a, b, 0);
    if MatchLen(w, a, b) > n { assert Same(w, a, b, 0) && Same(w, a, b, 1) && Same(w, a, b, n - 1) &&
      Same(w, a, b, n); }
  }

  // ---- reads behind the window

  /** No string tried, and no byte the search starts with, makes it look behind the window. */
  ghost predicate Inside(w: seq<byte>, prev: seq<nat>, s: nat, prevLength: nat, hashHead: nat)
    requires |prev| == WSIZE && s < WINDOW_SIZE
  {
    && s + prevLength < WINDOW_SIZE
    && forall c :: c in Visited(prev, hashHead, Limit(s), ChainLength(prevLength)) ==>
         Longest(w, s, c, WINDOW_SIZE - 1 - s)
  }

  /** The search stays inside the window exactly if that holds. */
  lemma StaysInside(w: seq<byte>, prev: seq<nat>, s: nat, prevLength: nat, hashHead: nat, best: nat, at: int)
    requires |w| == WINDOW_SIZE + MAX_MATCH && |prev| == WSIZE && s < WINDOW_SIZE && prevLength <= best
    requires var tried := Visited(prev, hashHead, Limit(s), ChainLength(prevLength));
             && (forall c :: c in tried ==> Longest(w, s, c, best))
             && (best > prevLength ==> 0 <= at < s && at in tried && MatchLen(w, s, at) == best)
    ensures s + best < WINDOW_SIZE <==> Inside(w, prev, s, prevLength, hashHead)
  {
    hide Visited, MatchLen;
    var tried := Visited(prev, hashHead, Limit(s), ChainLength(prevLength));
    if s + best < WINDOW_SIZE {
      forall c | c in tried ensures Longest(w, s, c, WINDOW_SIZE - 1 - s) { assert Longest(w, s, c, best); }
    } else if best > prevLength {
      assert !Longest(w, s, at, WINDOW_SIZE - 1 - s);
    }
  }

  /** The lookahead that is asked for before the end of the input is enough. */
  lemma EnoughIsInside(w: seq<byte>, prev: seq<nat>, s: nat, prevLength: nat, hashHead: nat)
    requires |prev| == WSIZE && s + MIN_LOOKAHEAD <= WINDOW_SIZE && prevLength < MAX_MATCH
    ensures Inside(w, prev, s, prevLength, hashHead)
  {
    hide Visited, MatchLen;
  }

  /** After the end of the input it need not be: here 65400 zero bytes have been read into a window of zeros and ten
      are left, and whatever lies behind the window is compared. */
  lemma ZerosReachBehind(w: seq<byte>, prev: seq<nat>)
    requires |w| == WINDOW_SIZE + MAX_MATCH && |prev| == WSIZE && forall i :: 0 <= i < WINDOW_SIZE ==> w[i] == 0
    ensures 65390 + MatchLen(w, 65390, 65389) >= WINDOW_SIZE && !Inside(w, prev, 65390, 3, 65389)
  {
    hide Visited, Run;
    forall i: nat | i < WINDOW_SIZE - 65390 ensures Same(w, 65390, 65389, i) {}
    RunAtLeast(w, 65390, 65389, 0, WINDOW_SIZE - 65390);
    VisitedFirst(prev, 65389, Limit(65390), ChainLength(3));
    assert !Longest(w, 65390, 65389, WINDOW_SIZE - 1 - 65390);
  }

  lemma {:induction false} RunAtLeast(w: seq<byte>, a: nat, b: nat, k: nat, n: nat)
    requires k <= n <= MAX_MATCH && a + MAX_MATCH <= |w| && b + MAX_MATCH <= |w|
    requires forall i :: k <= i < n ==> Same(w, a, b, i)
    ensures Run(w, a, b, k) >= n
    decreases n - k
  {
    if k < n {
      assert Same(w, a, b, k);
      RunAtLeast(w, a, b, k + 1, n);
    }
  }

}
