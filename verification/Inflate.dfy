/** A decoder for the deflate format, written from sections 3.1.1 and 3.2.3 to 3.2.7 of RFC 1951. */
module Inflate {
  import opened Bits
  import opened Canonical
  import opened Lz77
  import opened DeflateTables

  /** The result of reading something from a bit string: a value and the position after it, or an error. */
  datatype Parsed<+T> = Bad | Good(value: T, pos: nat)

  /** A number of `n` bits, least significant bit first. */
  ghost function Field(bits: seq<bool>, pos: nat, n: nat): Parsed<nat> {
    if pos + n <= |bits| then Good(Value(bits[pos..pos + n]), pos + n) else Bad
  }

  /** One literal or match; `None` is the end of the block. */
  ghost function DecodeToken(ll: seq<nat>, dl: seq<nat>, bits: seq<bool>, pos: nat): (r: Parsed<Option<Token>>)
    ensures r.Good? ==> pos < r.pos <= |bits|
  {
    match DecodeSymbol(ll, bits, pos)
    case None => Bad
    case Some(s) =>
      var p := pos + ll[s];
      if s < LITERALS then Good(Some(Literal(s)), p)
      else if s == END_BLOCK then Good(None, p)
      else if s >= L_CODES then Bad
      else DecodeMatch(dl, bits, p, s - (LITERALS + 1))
  }

  /** The rest of a match after its length code. */
  ghost function DecodeMatch(dl: seq<nat>, bits: seq<bool>, pos: nat, c: nat): (r: Parsed<Option<Token>>)
    requires c < LENGTH_CODES
    ensures r.Good? ==> pos < r.pos <= |bits|
  {
    match Field(bits, pos, EXTRA_LBITS[c])
    case Bad => Bad
    case Good(le, q) =>
      match DecodeSymbol(dl, bits, q)
      case None => Bad
      case Some(d) =>
        if d >= D_CODES then Bad
        else
          match Field(bits, q + dl[d], EXTRA_DBITS[d])
          case Bad => Bad
          case Good(de, r) => Good(Some(Match(LENGTH_BASE[c] + le, DIST_BASE[d] + de)), r)
  }

  /** The tokens of a compressed block up to its end. */
  ghost function DecodeTokens(ll: seq<nat>, dl: seq<nat>, bits: seq<bool>, pos: nat): Parsed<seq<Token>>
    decreases |bits| - pos
  {
    match DecodeToken(ll, dl, bits, pos)
    case Bad => Bad
    case Good(None, p) => Good([], p)
    case Good(Some(t), p) =>
      match DecodeTokens(ll, dl, bits, p)
      case Bad => Bad
      case Good(ts, q) => Good([t] + ts, q)
  }

  /** `n` times the length `l`. */
  function Repeat(l: nat, n: nat): (s: seq<nat>)
    ensures |s| == n && forall i :: 0 <= i < n ==> s[i] == l
  {
    seq(n, i => l)
  }

  /** The code lengths read after `sofar` until there are `total` (section 3.2.7). */
  ghost function DecodeLengths(bl: seq<nat>, bits: seq<bool>, pos: nat, total: nat, sofar: seq<nat>): Parsed<seq<nat>>
    requires |sofar| <= total
    decreases total - |sofar|
  {
    if |sofar| == total then Good(sofar, pos)
    else
      match DecodeSymbol(bl, bits, pos)
      case None => Bad
      case Some(s) =>
        var p := pos + bl[s];
        if s < 16 then DecodeLengths(bl, bits, p, total, sofar + [s])
        else if s == 16 && sofar != [] then Repeated(bl, bits, p, total, sofar, sofar[|sofar| - 1], 2, 3)
        else if s == 17 then Repeated(bl, bits, p, total, sofar, 0, 3, 3)
        else if s == 18 then Repeated(bl, bits, p, total, sofar, 0, 7, 11)
        else Bad
  }

  /** Goes on after a repeat code for length `l` with `n` bits of repeat count above `least`. */
  ghost function Repeated(bl: seq<nat>, bits: seq<bool>, pos: nat, total: nat, sofar: seq<nat>, l: nat, n: nat,
                          least: nat): Parsed<seq<nat>>
    requires |sofar| < total && least > 0
    decreases total - |sofar|, 0
  {
    match Field(bits, pos, n)
    case Bad => Bad
    case Good(k, q) =>
      if |sofar| + least + k > total then Bad
      else DecodeLengths(bl, bits, q, total, sofar + Repeat(l, least + k))
  }

  const BL_ORDER: seq<nat> := [16, 17, 18, 0, 8, 7, 9, 6, 10, 5, 11, 4, 12, 3, 13, 2, 14, 1, 15]

  /** The order of section 3.2.7 of RFC 1951: the repetitions and zero first, then lengths farther and farther from
      eight, the one above before the one below. */
  lemma OrderOutwards(k: nat)
    requires k < 8
    ensures BL_ORDER[..4] == [16, 17, 18, 0] && |BL_ORDER| == 19
    ensures BL_ORDER[4 + 2 * k] == 8 + k && (k < 7 ==> BL_ORDER[5 + 2 * k] == 7 - k)
  {
    if k < 4 {} else {}
  }

  /** The first `n` code length code lengths, three bits each, put in their places. */
  ghost function DecodeClCodes(bits: seq<bool>, pos: nat, n: nat): (r: Parsed<seq<nat>>)
    requires n <= 19
    ensures r.Good? ==> |r.value| == 19 && r.pos == pos + 3 * n
  {
    if n == 0 then Good(Repeat(0, 19), pos)
    else
      match DecodeClCodes(bits, pos, n - 1)
      case Bad => Bad
      case Good(bl, p) =>
        match Field(bits, p, 3)
        case Bad => Bad
        case Good(l, q) => PlaceInRange(n - 1); Good(bl[BL_ORDER[n - 1] := l], q)
  }

  lemma PlaceInRange(r: nat)
    requires r < 19
    ensures BL_ORDER[r] < 19
  {
    if r < 7 {} else if r < 13 {} else {}
  }

  /** The literal/length and distance code lengths at the head of a dynamic block. */
  ghost function DecodeTrees(bits: seq<bool>, pos: nat): Parsed<(seq<nat>, seq<nat>)> {
    if pos + 14 > |bits| then Bad
    else
      var hlit := Value(bits[pos..pos + 5]) + 257;
      var hdist := Value(bits[pos + 5..pos + 10]) + 1;
      var hclen := Value(bits[pos + 10..pos + 14]) + 4;
      if hclen > 19 then Bad
      else
        match DecodeClCodes(bits, pos + 14, hclen)
        case Bad => Bad
        case Good(bl, p) =>
          match DecodeLengths(bl, bits, p, hlit + hdist, [])
          case Bad => Bad
          case Good(lens, q) => if |lens| < hlit then Bad else Good((lens[..hlit], lens[hlit..]), q)
  }

  /** The lengths of the fixed codes (section 3.2.6). */
  function FixedLengths(): (s: seq<nat>)
    ensures |s| == 288
    ensures forall n :: 0 <= n < 288 ==> s[n] == if n < 144 then 8 else if n < 256 then 9 else if n < 280 then 7 else 8
  {
    seq(288, n => if n < 144 then 8 else if n < 256 then 9 else if n < 280 then 7 else 8)
  }

  /** Distance codes 30 and 31 never occur. */
  function FixedDistances(): seq<nat> { Repeat(5, D_CODES) }

  /** `n` whole bytes. */
  ghost function DecodeBytes(bits: seq<bool>, pos: nat, n: nat): (r: Parsed<seq<byte>>)
    ensures r.Good? ==> |r.value| == n && r.pos == pos + 8 * n <= |bits|
  {
    if pos > |bits| then Bad
    else if n == 0 then Good([], pos)
    else
      match DecodeBytes(bits, pos, n - 1)
      case Bad => Bad
      case Good(s, p) =>
        match Field(bits, p, 8)
        case Bad => Bad
        case Good(v, q) => if v < 256 then Good(s + [v], q) else Bad
  }

  /** A stored block after its header bits (section 3.2.4). */
  ghost function DecodeStored(bits: seq<bool>, pos: nat): Parsed<seq<byte>> {
    var p := pos + Align(pos);
    match Field(bits, p, 16)
    case Bad => Bad
    case Good(len, q) =>
      match Field(bits, q, 16)
      case Bad => Bad
      case Good(nlen, r) => if len + nlen == 65535 then DecodeBytes(bits, r, len) else Bad
  }

  /** Replays the tokens of a block after the bytes already produced. */
  ghost function ExpandBlock(r: Parsed<seq<Token>>, out: seq<byte>): Parsed<seq<byte>> {
    match r
    case Bad => Bad
    case Good(ts, q) =>
      match Expand(out, ts)
      case None => Bad
      case Some(data) => Good(data, q)
  }

  /** One block; the value is whether it is the last one, and all bytes so far. */
  ghost function DecodeBlock(bits: seq<bool>, pos: nat, out: seq<byte>): Parsed<(bool, seq<byte>)> {
    if pos + 3 > |bits| then Bad
    else
      var last, kind := bits[pos], Value(bits[pos + 1..pos + 3]);
      var r := if kind == 0 then
          match DecodeStored(bits, pos + 3)
          case Bad => Bad
          case Good(data, q) => Good(out + data, q)
        else if kind == 1 then ExpandBlock(DecodeTokens(FixedLengths(), FixedDistances(), bits, pos + 3), out)
        else if kind == 2 then
          match DecodeTrees(bits, pos + 3)
          case Bad => Bad
          case Good(trees, q) => ExpandBlock(DecodeTokens(trees.0, trees.1, bits, q), out)
        else Bad;
      match r
      case Bad => Bad
      case Good(data, q) => Good((last, data), q)
  }

  /** All blocks up to the last one. */
  ghost function DecodeBlocks(bits: seq<bool>, pos: nat, out: seq<byte>): Parsed<seq<byte>>
    decreases |bits| - pos
  {
    match DecodeBlock(bits, pos, out)
    case Bad => Bad
    case Good((last, data), q) =>
      if last then Good(data, q) else if pos < q <= |bits| then DecodeBlocks(bits, q, data) else Bad
  }
}
