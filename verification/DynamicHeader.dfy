/** The head of a dynamic block: the counts, the code length code, and both trees (section 3.2.7 of RFC 1951). */
module DynamicHeader {
  import opened Bits
  import opened Canonical
  import opened Inflate
  import opened DeflateFormat
  import opened TreeRle

  /** Where each code length symbol stands in `BL_ORDER`. */
  const RANK: seq<nat> := [3, 17, 15, 13, 11, 9, 7, 5, 4, 6, 8, 10, 12, 14, 16, 18, 0, 1, 2]

  lemma OrderOfRank(k: nat)
    requires k < 19
    ensures RANK[k] < 19 && BL_ORDER[RANK[k]] == k
  {
    if k < 5 {} else if k < 10 {} else if k < 15 {} else {}
  }

  lemma RankOfOrder(r: nat)
    requires r < 19
    ensures BL_ORDER[r] < 19 && RANK[BL_ORDER[r]] == r
  {
    if r < 5 {} else if r < 10 {} else if r < 15 {} else {}
  }

  /** The lengths `bl` of the first `n` symbols of the order, and none for the rest. */
  ghost function Placed(bl: seq<nat>, n: nat): (s: seq<nat>)
    requires |bl| == 19
    ensures |s| == 19 && forall k :: 0 <= k < 19 ==> s[k] == if RANK[k] < n then bl[k] else 0
  {
    seq(19, k requires 0 <= k < 19 => if RANK[k] < n then bl[k] else 0)
  }

  /** Three bits for each of the first `n` code length code lengths. */
  ghost function ClBits(bl: seq<nat>, n: nat): (b: seq<bool>)
    requires |bl| == 19 && n <= 19
    ensures |b| == 3 * n
  {
    if n == 0 then [] else
      PlaceInRange(n - 1);
      ClBits(bl, n - 1) + Lsb(bl[BL_ORDER[n - 1]], 3)
  }

  lemma {:induction false} ClRoundTrip(bl: seq<nat>, bits: seq<bool>, pos: nat, n: nat)
    requires |bl| == 19 && n <= 19 && LengthsUpTo(bl, 7) && StandsAt(bits, pos, ClBits(bl, n))
    ensures DecodeClCodes(bits, pos, n) == Good(Placed(bl, n), pos + 3 * n)
  {
    hide StandsAt, Lsb, Field;
    if n == 0 {
      assert Placed(bl, 0) == Repeat(0, 19);
    } else {
      RankOfOrder(n - 1);
      var k := BL_ORDER[n - 1];
      StandsConcat(bits, pos, ClBits(bl, n - 1), Lsb(bl[k], 3));
      ClRoundTrip(bl, bits, pos, n - 1);
      assert Pow2(3) == 8;
      ReadField(bits, pos + 3 * (n - 1), bl[k], 3);
      PlaceNext(bl, n);
    }
  }

  lemma PlaceNext(bl: seq<nat>, n: nat)
    requires |bl| == 19 && 0 < n <= 19
    ensures BL_ORDER[n - 1] < 19 && Placed(bl, n - 1)[BL_ORDER[n - 1] := bl[BL_ORDER[n - 1]]] == Placed(bl, n)
  {
    RankOfOrder(n - 1);
    var s := Placed(bl, n - 1)[BL_ORDER[n - 1] := bl[BL_ORDER[n - 1]]];
    forall k: nat | k < 19 ensures s[k] == Placed(bl, n)[k] { OrderOfRank(k); }
  }

  /** Everything but the trees: the three counts and the code length code. */
  ghost function CountBits(hlit: nat, hdist: nat, hclen: nat): (b: seq<bool>)
    requires 257 <= hlit <= 286 && 1 <= hdist <= 30 && 4 <= hclen <= 19
    ensures |b| == 14
  {
    (Lsb(hlit - 257, 5) + Lsb(hdist - 1, 5)) + Lsb(hclen - 4, 4)
  }

  ghost predicate Transmittable(ll: seq<nat>, dl: seq<nat>, bl: seq<nat>, hclen: nat) {
    && 257 <= |ll| <= 286 && 1 <= |dl| <= 30 && 4 <= hclen <= 19 && |bl| == 19
    && CodeLengths(ll) && CodeLengths(dl) && LengthsUpTo(bl, 7) && (exists m :: NotOversubscribed(bl, m))
    && Coverable(bl, TreeItems(ll)) && Coverable(bl, TreeItems(dl))
    && forall r :: hclen <= r < 19 ==> bl[BL_ORDER[r]] == 0
  }

  /** The head of a dynamic block after its three header bits. */
  ghost function HeaderBits(ll: seq<nat>, dl: seq<nat>, bl: seq<nat>, hclen: nat): seq<bool>
    requires Transmittable(ll, dl, bl, hclen)
  {
    (CountBits(|ll|, |dl|, hclen) + ClBits(bl, hclen)) + (ItemsBits(bl, TreeItems(ll)) + ItemsBits(bl, TreeItems(dl)))
  }

  lemma AllPlaced(bl: seq<nat>, hclen: nat)
    requires |bl| == 19 && hclen <= 19 && forall r :: hclen <= r < 19 ==> bl[BL_ORDER[r]] == 0
    ensures Placed(bl, hclen) == bl
  {
    forall k: nat | k < 19 ensures Placed(bl, hclen)[k] == bl[k] { OrderOfRank(k); }
  }

  lemma CountsRoundTrip(bits: seq<bool>, pos: nat, hlit: nat, hdist: nat, hclen: nat)
    requires 257 <= hlit <= 286 && 1 <= hdist <= 30 && 4 <= hclen <= 19
    requires StandsAt(bits, pos, CountBits(hlit, hdist, hclen))
    ensures pos + 14 <= |bits| && Value(bits[pos..pos + 5]) == hlit - 257 && Value(bits[pos + 5..pos + 10]) == hdist - 1
    ensures Value(bits[pos + 10..pos + 14]) == hclen - 4
  {
    hide Lsb, Value;
    var a, b, c := Lsb(hlit - 257, 5), Lsb(hdist - 1, 5), Lsb(hclen - 4, 4);
    StandsConcat(bits, pos, a + b, c);
    StandsConcat(bits, pos, a, b);
    assert Pow2(5) == 32 && Pow2(4) == 16;
    ReadField(bits, pos, hlit - 257, 5);
    ReadField(bits, pos + 5, hdist - 1, 5);
    ReadField(bits, pos + 10, hclen - 4, 4);
  }

  lemma TreesRoundTrip(ll: seq<nat>, dl: seq<nat>, bl: seq<nat>, m: nat, bits: seq<bool>, pos: nat)
    requires CodeLengths(ll) && CodeLengths(dl) && NotOversubscribed(bl, m)
    requires Coverable(bl, TreeItems(ll)) && Coverable(bl, TreeItems(dl))
    requires StandsAt(bits, pos, ItemsBits(bl, TreeItems(ll)) + ItemsBits(bl, TreeItems(dl)))
    ensures DecodeLengths(bl, bits, pos, |ll| + |dl|, [])
            == Good(ll + dl, pos + |ItemsBits(bl, TreeItems(ll))| + |ItemsBits(bl, TreeItems(dl))|)
  {
    hide StandsAt, ItemsBits, TreeItems, NotOversubscribed, CodeLengths, ApplyAll, Readable, DecodeLengths;
    var a, b := TreeItems(ll), TreeItems(dl);
    TreeItemsStandFor([], ll);
    TreeItemsStandFor(ll, dl);
    assert [] + ll == ll;
    ApplyAllConcat([], a, b);
    assert Coverable(bl, a + b);
    ItemsBitsConcat(bl, a, b);
    ItemsRoundTrip(bl, m, bits, pos, [], a + b);
  }

  /** The decoder reads back both trees' code lengths. */
  lemma HeaderRoundTrip(ll: seq<nat>, dl: seq<nat>, bl: seq<nat>, hclen: nat, bits: seq<bool>, pos: nat)
    requires Transmittable(ll, dl, bl, hclen) && StandsAt(bits, pos, HeaderBits(ll, dl, bl, hclen))
    ensures DecodeTrees(bits, pos) == Good((ll, dl), pos + |HeaderBits(ll, dl, bl, hclen)|)
  {
    hide StandsAt, ItemsBits, TreeItems, NotOversubscribed, CodeLengths, DecodeLengths, DecodeClCodes, ClBits,
         CountBits, Coverable, LengthsUpTo, Value, Placed;
    var c, k, a, b := CountBits(|ll|, |dl|, hclen), ClBits(bl, hclen), ItemsBits(bl, TreeItems(ll)),
        ItemsBits(bl, TreeItems(dl));
    var m :| NotOversubscribed(bl, m);
    StandsConcat(bits, pos, c + k, a + b);
    StandsConcat(bits, pos, c, k);
    CountsRoundTrip(bits, pos, |ll|, |dl|, hclen);
    ClRoundTrip(bl, bits, pos + 14, hclen);
    AllPlaced(bl, hclen);
    TreesRoundTrip(ll, dl, bl, m, bits, pos + 14 + 3 * hclen);
    assert (ll + dl)[..|ll|] == ll && (ll + dl)[|ll|..] == dl;
  }
}
