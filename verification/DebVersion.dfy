/** The version comparison of dpkg.c: order, version_compare_part, version_compare and test_version. */
module DebVersion {
  import opened Bits

  predicate IsDigit(c: byte) { 48 <= c <= 57 }

  predicate IsAlpha(c: byte) { 65 <= c <= 90 || 97 <= c <= 122 }

  const TILDE: byte := 126

  /** The weight of a character; the end of the string is zero. */
  function Order(x: byte): int {
    if x == TILDE then -1 else if x == 0 then 0 else if IsDigit(x) then 0 else if IsAlpha(x) then x else x + 256
  }

  /** A string has no zero bytes; reading at its end gives one. */
  ghost predicate CString(s: seq<byte>) { forall i :: 0 <= i < |s| ==> s[i] != 0 }

  function Peek(s: seq<byte>, i: nat): byte { if i < |s| then s[i] else 0 }

  function Sign(x: int): int { if x < 0 then -1 else if x > 0 then 1 else 0 }

  // ---- keys: a version part as a sequence of numbers

  /** The value of the digits at the start of `s`, after the value `acc` before them. */
  function NumberFrom(s: seq<byte>, acc: nat): nat {
    if s != [] && IsDigit(s[0]) then NumberFrom(s[1..], 10 * acc + (s[0] - 48)) else acc
  }

  function Number(s: seq<byte>): nat { NumberFrom(s, 0) }

  /** What comes after the digits at the start. */
  function AfterDigits(s: seq<byte>): (r: seq<byte>)
    ensures |r| <= |s| && (s != [] && IsDigit(s[0]) ==> |r| < |s|)
  {
    if s != [] && IsDigit(s[0]) then AfterDigits(s[1..]) else s
  }

  /** The weights of the non-digits, a zero where they end, and the number that follows, over and over. */
  function Key(s: seq<byte>): seq<int>
    decreases |s|
  {
    if s == [] then []
    else if IsDigit(s[0]) then [0, Number(s)] + Key(AfterDigits(s))
    else [Order(s[0])] + Key(s[1..])
  }

  /** Compares sequences as if followed by zeros without end. */
  function LexZ(a: seq<int>, b: seq<int>): (r: int)
    ensures -1 <= r <= 1
    decreases |a| + |b|
  {
    if a == [] && b == [] then 0
    else
      var x, y := if a == [] then 0 else a[0], if b == [] then 0 else b[0];
      if x < y then -1 else if x > y then 1
      else LexZ(if a == [] then [] else a[1..], if b == [] then [] else b[1..])
  }

  lemma {:induction false} LexZReverse(a: seq<int>, b: seq<int>)
    ensures LexZ(a, b) == -LexZ(b, a)
    decreases |a| + |b|
  {
    if a != [] || b != [] { LexZReverse(if a == [] then [] else a[1..], if b == [] then [] else b[1..]); }
  }

  lemma {:induction false} LexZSame(a: seq<int>)
    ensures LexZ(a, a) == 0
  {
    if a != [] { LexZSame(a[1..]); }
  }

  lemma {:induction false} LexZTransitive(a: seq<int>, b: seq<int>, c: seq<int>)
    requires LexZ(a, b) <= 0 && LexZ(b, c) <= 0
    ensures LexZ(a, c) <= 0 && (LexZ(a, c) == 0 ==> LexZ(a, b) == 0 && LexZ(b, c) == 0)
    decreases |a| + |b| + |c|
  {
    if a != [] || b != [] || c != [] {
      var a', b', c' := if a == [] then [] else a[1..], if b == [] then [] else b[1..], if c == [] then [] else c[1..];
      var x, y, z := if a == [] then 0 else a[0], if b == [] then 0 else b[0], if c == [] then 0 else c[0];
      if x == y == z { LexZTransitive(a', b', c'); }
    }
  }

  // ---- equal heads

  lemma LexZCons(x: int, a: seq<int>, b: seq<int>)
    ensures LexZ([x] + a, [x] + b) == LexZ(a, b)
  {
    assert ([x] + a)[1..] == a && ([x] + b)[1..] == b;
  }

  /** What the first weights say. */
  lemma LexZHead(a: seq<int>, b: seq<int>)
    ensures var x, y := if a == [] then 0 else a[0], if b == [] then 0 else b[0]; x != y ==> LexZ(a, b) == Sign(x - y)
  {
  }

  lemma KeyHead(s: seq<byte>)
    requires CString(s)
    ensures (if Key(s) == [] then 0 else Key(s)[0]) == Order(Peek(s, 0))
  {
  }

  /** At a digit or at the end, the numbers are compared and then the rest. */
  lemma KeyNumbers(s: seq<byte>, t: seq<byte>)
    requires (s == [] || IsDigit(s[0])) && (t == [] || IsDigit(t[0]))
    ensures LexZ(Key(s), Key(t))
            == if Number(s) != Number(t) then Sign(Number(s) - Number(t))
              else LexZ(Key(AfterDigits(s)), Key(AfterDigits(t)))
  {
    NumberHead(Key(s), s);
    NumberHead(Key(t), t);
    ZerosFirst(Number(s), Key(AfterDigits(s)), Number(t), Key(AfterDigits(t)));
    LexZPadded(s, t);
  }

  lemma NumberHead(k: seq<int>, s: seq<byte>)
    requires k == Key(s) && (s == [] || IsDigit(s[0]))
    ensures s == [] ==> k == [] && Number(s) == 0 && AfterDigits(s) == []
    ensures s != [] ==> k == [0, Number(s)] + Key(AfterDigits(s))
  {
  }

  lemma ZerosFirst(x: int, a: seq<int>, y: int, b: seq<int>)
    ensures LexZ([0, x] + a, [0, y] + b) == if x != y then Sign(x - y) else LexZ(a, b)
  {
    assert [0, x] + a == [0] + ([x] + a) && [0, y] + b == [0] + ([y] + b);
    LexZCons(0, [x] + a, [y] + b);
    LexZHead([x] + a, [y] + b);
    if x == y { LexZCons(x, a, b); }
  }

  /** A missing number is zero. */
  lemma LexZPadded(s: seq<byte>, t: seq<byte>)
    requires (s == [] || IsDigit(s[0])) && (t == [] || IsDigit(t[0]))
    ensures LexZ(Key(s), Key(t)) == LexZ([0, Number(s)] + Key(AfterDigits(s)), [0, Number(t)] + Key(AfterDigits(t)))
  {
    NumberHead(Key(s), s);
    NumberHead(Key(t), t);
    if s == [] && t != [] { PadLeft(Key(t)); assert [0, 0] + Key([]) == [0, 0]; }
    if t == [] && s != [] { PadRight(Key(s)); assert [0, 0] + Key([]) == [0, 0]; }
    if s == [] && t == [] { LexZSame([0, 0] + Key([])); }
  }

  lemma PadLeft(b: seq<int>)
    ensures LexZ([], b) == LexZ([0, 0], b)
  {
    assert [0, 0][1..] == [0] && [0][1..] == [];
    if b != [] && b[0] == 0 {
      assert LexZ([], b) == LexZ([], b[1..]);
      assert LexZ([0, 0], b) == LexZ([0], b[1..]);
    } else if b == [] {
      assert LexZ([0, 0], b) == LexZ([0], []);
      assert LexZ([0], []) == LexZ([], []);
    }
    OneZero(if b == [] then [] else b[1..]);
  }

  lemma OneZero(b: seq<int>)
    ensures LexZ([], b) == LexZ([0], b)
  {
    assert [0][1..] == [];
    if b == [] { assert LexZ([0], b) == LexZ([], []); }
  }

  lemma PadRight(a: seq<int>)
    ensures LexZ(a, []) == LexZ(a, [0, 0])
  {
    LexZReverse(a, []);
    LexZReverse(a, [0, 0]);
    PadLeft(a);
  }

  // ---- version_compare_part

  /** An absent string reads as the empty one. */
  function Text(s: Option<seq<byte>>): seq<byte> { if s.Some? then s.value else [] }

  /** How two version parts compare. */
  function ComparePart(a: seq<byte>, b: seq<byte>): int { LexZ(Key(a), Key(b)) }

  predicate AtNumber(s: seq<byte>) { s == [] || IsDigit(s[0]) }

  /** The strings differ in weight at their first characters, which are not both digits or ends. */
  ghost predicate Apart(s: seq<byte>, t: seq<byte>) {
    !(AtNumber(s) && AtNumber(t)) && Order(Peek(s, 0)) != Order(Peek(t, 0))
  }

  lemma ApartDiffers(v: seq<byte>, w: seq<byte>, i: nat, j: nat)
    requires i <= |v| && j <= |w|
    ensures Apart(v[i..], w[j..]) ==> Order(Peek(v, i)) != Order(Peek(w, j))
  {
    assert Peek(v, i) == Peek(v[i..], 0) && Peek(w, j) == Peek(w[j..], 0);
  }

  lemma SameCharacter(s: seq<byte>, t: seq<byte>)
    requires CString(s) && CString(t) && !(AtNumber(s) && AtNumber(t)) && Order(Peek(s, 0)) == Order(Peek(t, 0))
    ensures s != [] && t != [] && s[0] == t[0] && ComparePart(s, t) == ComparePart(s[1..], t[1..])
  {
    LexZCons(Order(s[0]), Key(s[1..]), Key(t[1..]));
  }

  lemma OtherCharacter(s: seq<byte>, t: seq<byte>)
    requires CString(s) && CString(t) && Order(Peek(s, 0)) != Order(Peek(t, 0))
    ensures ComparePart(s, t) == Sign(Order(Peek(s, 0)) - Order(Peek(t, 0)))
  {
    KeyHead(s);
    KeyHead(t);
    LexZHead(Key(s), Key(t));
  }

  /** The loop over the non-digits of both strings. */
  method CompareText(val: seq<byte>, refn: seq<byte>, i0: nat, j0: nat) returns (diff: int, i: nat, j: nat)
    requires i0 <= |val| && j0 <= |refn| && CString(val) && CString(refn)
    ensures i0 <= i <= |val| && j0 <= j <= |refn|
    ensures diff != 0 ==> Sign(diff) == ComparePart(val[i0..], refn[j0..])
    ensures Apart(val[i0..], refn[j0..]) ==> diff == Order(Peek(val, i0)) - Order(Peek(refn, j0))
    ensures diff == 0 ==> AtNumber(val[i..]) && AtNumber(refn[j..])
    ensures diff == 0 ==> ComparePart(val[i..], refn[j..]) == ComparePart(val[i0..], refn[j0..])
  {
    i, j := i0, j0;
    while (Peek(val, i) != 0 && !IsDigit(Peek(val, i))) || (Peek(refn, j) != 0 && !IsDigit(Peek(refn, j)))
      invariant i0 <= i <= |val| && j0 <= j <= |refn|
      invariant ComparePart(val[i..], refn[j..]) == ComparePart(val[i0..], refn[j0..])
      invariant (i == i0 && j == j0) || !Apart(val[i0..], refn[j0..])
      decreases |val| - i + |refn| - j
    {
      hide Key, LexZ;
      var vc, rc := Order(Peek(val, i)), Order(Peek(refn, j));
      assert Peek(val, i) == Peek(val[i..], 0) && Peek(refn, j) == Peek(refn[j..], 0);
      if vc != rc {
        OtherCharacter(val[i..], refn[j..]);
        return vc - rc, i, j;
      }
      SameCharacter(val[i..], refn[j..]);
      assert val[i..][1..] == val[i + 1..] && refn[j..][1..] == refn[j + 1..];
      i, j := i + 1, j + 1;
    }
    diff := 0;
  }

  method SkipZeros(s: seq<byte>, i0: nat) returns (i: nat)
    requires i0 <= |s|
    ensures i0 <= i <= |s| && Peek(s, i) != 48
    ensures Number(s[i..]) == Number(s[i0..]) && AfterDigits(s[i..]) == AfterDigits(s[i0..])
  {
    i := i0;
    while Peek(s, i) == 48
      invariant i0 <= i <= |s|
      invariant Number(s[i..]) == Number(s[i0..]) && AfterDigits(s[i..]) == AfterDigits(s[i0..])
      decreases |s| - i
    {
      assert s[i..][1..] == s[i + 1..];
      i := i + 1;
    }
  }

  lemma {:induction false} NumberGrows(s: seq<byte>, acc: nat)
    ensures NumberFrom(s, acc) >= acc
    ensures s != [] && IsDigit(s[0]) ==> NumberFrom(s, acc) >= 10 * acc + (s[0] - 48)
    decreases |s|
  {
    if s != [] && IsDigit(s[0]) { NumberGrows(s[1..], 10 * acc + (s[0] - 48)); }
  }

  lemma TakeDigit(s: seq<byte>, i: nat, acc: nat)
    requires i < |s| && IsDigit(s[i])
    ensures NumberFrom(s[i..], acc) == NumberFrom(s[i + 1..], 10 * acc + (s[i] - 48))
    ensures AfterDigits(s[i..]) == AfterDigits(s[i + 1..])
  {
    assert s[i..][1..] == s[i + 1..];
  }

  /** The loop over the digits of both strings, from the first that is not a zero. */
  method CompareDigits(val: seq<byte>, refn: seq<byte>, i0: nat, j0: nat) returns (diff: int, i: nat, j: nat)
    requires i0 <= |val| && j0 <= |refn| && Peek(val, i0) != 48 && Peek(refn, j0) != 48
    ensures i0 <= i <= |val| && j0 <= j <= |refn|
    ensures Sign(diff) == Sign(Number(val[i0..]) - Number(refn[j0..]))
    ensures diff == 0 ==> val[i..] == AfterDigits(val[i0..]) && refn[j..] == AfterDigits(refn[j0..])
  {
    i, j := i0, j0;
    var firstDiff: int := 0;
    ghost var a: nat, b: nat, p: nat := 0, 0, 1;
    while IsDigit(Peek(val, i)) && IsDigit(Peek(refn, j))
      invariant i0 <= i <= |val| && j0 <= j <= |refn|
      invariant Number(val[i0..]) == NumberFrom(val[i..], a) && Number(refn[j0..]) == NumberFrom(refn[j..], b)
      invariant AfterDigits(val[i0..]) == AfterDigits(val[i..]) && AfterDigits(refn[j0..]) == AfterDigits(refn[j..])
      invariant Sign(firstDiff) == Sign(a - b) && a < p && b < p
      invariant (i == i0 && j == j0 && p == 1) || (10 * a >= p && 10 * b >= p)
      decreases |val| - i
    {
      TakeDigit(val, i, a);
      TakeDigit(refn, j, b);
      hide NumberFrom, AfterDigits;
      if firstDiff == 0 { firstDiff := val[i] as int - refn[j] as int; }
      a, b, p := 10 * a + (val[i] - 48), 10 * b + (refn[j] - 48), 10 * p;
      i, j := i + 1, j + 1;
    }
    if IsDigit(Peek(val, i)) {
      NumberGrows(val[i..], a);
      return 1, i, j;
    }
    if IsDigit(Peek(refn, j)) {
      NumberGrows(refn[j..], b);
      return -1, i, j;
    }
    diff := firstDiff;
  }

  lemma AfterDigitsSuffix(s: seq<byte>, i: nat)
    requires i <= |s| && AtNumber(s[i..]) && i < |s|
    ensures |AfterDigits(s[i..])| < |s[i..]|
  {
  }

  /** One round of the comparison: the text, the zeros and the digits. */
  method CompareRound(v: seq<byte>, w: seq<byte>, i0: nat, j0: nat) returns (diff: int, i: nat, j: nat)
    requires i0 <= |v| && j0 <= |w| && CString(v) && CString(w)
    ensures i0 <= i <= |v| && j0 <= j <= |w|
    ensures diff != 0 ==> Sign(diff) == ComparePart(v[i0..], w[j0..])
    ensures Apart(v[i0..], w[j0..]) ==> diff == Order(Peek(v, i0)) - Order(Peek(w, j0))
    ensures diff == 0 ==> ComparePart(v[i..], w[j..]) == ComparePart(v[i0..], w[j0..])
    ensures diff == 0 && (i0 < |v| || j0 < |w|) ==> i0 < i || j0 < j
  {
    hide ComparePart, NumberFrom, AfterDigits, CString, Apart;
    ApartDiffers(v, w, i0, j0);
    diff, i, j := CompareText(v, w, i0, j0);
    if diff != 0 { return; }
    ghost var i1, j1 := i, j;
    CompareNumbers(v[i..], w[j..]);
    i := SkipZeros(v, i);
    j := SkipZeros(w, j);
    diff, i, j := CompareDigits(v, w, i, j);
    if diff == 0 { DigitsTaken(v, w, i1, j1, i, j); }
  }

  lemma CompareNumbers(s: seq<byte>, t: seq<byte>)
    requires AtNumber(s) && AtNumber(t)
    ensures ComparePart(s, t)
            == if Number(s) != Number(t) then Sign(Number(s) - Number(t))
               else ComparePart(AfterDigits(s), AfterDigits(t))
  {
    KeyNumbers(s, t);
  }

  /** A number that is there is passed over. */
  lemma DigitsTaken(v: seq<byte>, w: seq<byte>, i: nat, j: nat, i': nat, j': nat)
    requires i <= i' <= |v| && j <= j' <= |w| && AtNumber(v[i..]) && AtNumber(w[j..])
    requires v[i'..] == AfterDigits(v[i..]) && w[j'..] == AfterDigits(w[j..])
    ensures (i < |v| ==> i < i') && (j < |w| ==> j < j')
  {
    hide AfterDigits;
    if i < |v| { AfterDigitsSuffix(v, i); }
    if j < |w| { AfterDigitsSuffix(w, j); }
  }

  method VersionComparePart(val: Option<seq<byte>>, refn: Option<seq<byte>>) returns (r: int)
    requires CString(Text(val)) && CString(Text(refn))
    ensures Sign(r) == ComparePart(Text(val), Text(refn))
    ensures Apart(Text(val), Text(refn)) ==> r == Order(Peek(Text(val), 0)) - Order(Peek(Text(refn), 0))
  {
    hide ComparePart, CString, Apart;
    var v, w := Text(val), Text(refn);
    var i: nat, j: nat := 0, 0;
    assert v[0..] == v && w[0..] == w;
    ApartDiffers(v, w, 0, 0);
    NotEnded(v, i);
    NotEnded(w, j);
    while Peek(v, i) != 0 || Peek(w, j) != 0
      invariant i <= |v| && j <= |w| && (Peek(v, i) == 0 <==> i == |v|) && (Peek(w, j) == 0 <==> j == |w|)
      invariant ComparePart(v[i..], w[j..]) == ComparePart(v, w)
      invariant (i == 0 && j == 0) || !Apart(v, w)
      decreases |v| - i + |w| - j
    {
      r, i, j := CompareRound(v, w, i, j);
      if r != 0 { return; }
      NotEnded(v, i);
      NotEnded(w, j);
    }
    NothingLeft(v[i..], w[j..]);
    NotApart(v, w);
    return 0;
  }

  /** The terminating zero is the only one. */
  lemma NotEnded(s: seq<byte>, i: nat)
    requires CString(s) && i <= |s|
    ensures Peek(s, i) == 0 <==> i == |s|
  {
  }

  lemma NotApart(v: seq<byte>, w: seq<byte>)
    ensures v == [] && w == [] ==> !Apart(v, w)
  {
  }

  lemma NothingLeft(s: seq<byte>, t: seq<byte>)
    requires s == [] && t == []
    ensures ComparePart(s, t) == 0
  {
  }
}
