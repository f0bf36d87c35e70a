/**
 * The order on versions that version_compare decides, against section 5.6.12 of the Debian Policy Manual,
 * and the relations test_version offers.
 */
module DebOrder {
  import opened Bits
  import opened DebVersion

  // ---- the order of the policy, on its own terms

  /** Tilde sorts before the end of a part, the end before letters, letters before everything else. */
  function Class(c: Option<byte>): nat {
    if c.None? then 1 else if c.value == TILDE then 0 else if IsAlpha(c.value) then 2 else 3
  }

  function CompareCharacter(a: Option<byte>, b: Option<byte>): int {
    if Class(a) != Class(b) then Sign(Class(a) - Class(b))
    else if a.Some? && b.Some? then Sign(a.value as int - b.value as int) else 0
  }

  function First(s: seq<byte>): Option<byte> { if s == [] then None else Some(s[0]) }

  function Rest(s: seq<byte>): seq<byte> { if s == [] then [] else s[1..] }

  function CompareWords(a: seq<byte>, b: seq<byte>): int
    decreases |a| + |b|
  {
    if a == [] && b == [] then 0
    else if CompareCharacter(First(a), First(b)) != 0 then CompareCharacter(First(a), First(b))
    else CompareWords(Rest(a), Rest(b))
  }

  /** The non-digits at the start. */
  function Word(s: seq<byte>): (r: seq<byte>) {
    if s == [] || IsDigit(s[0]) then [] else [s[0]] + Word(s[1..])
  }

  function AfterWord(s: seq<byte>): (r: seq<byte>)
    ensures |r| <= |s| && (!AtNumber(s) ==> |r| < |s|) && AtNumber(r)
  {
    if s == [] || IsDigit(s[0]) then s else AfterWord(s[1..])
  }

  /** Non-digits, then a number, then the rest in the same way. */
  function PolicyPart(a: seq<byte>, b: seq<byte>): int
    decreases |a| + |b|
  {
    if a == [] && b == [] then 0
    else if CompareWords(Word(a), Word(b)) != 0 then CompareWords(Word(a), Word(b))
    else
      var x, y := AfterWord(a), AfterWord(b);
      if Number(x) != Number(y) then Sign(Number(x) - Number(y)) else PolicyPart(AfterDigits(x), AfterDigits(y))
  }

  lemma OrderIsPolicy(s: seq<byte>, t: seq<byte>)
    requires CString(s) && CString(t)
    ensures CompareCharacter(First(Word(s)), First(Word(t))) == Sign(Order(Peek(s, 0)) - Order(Peek(t, 0)))
  {
  }

  /** The words are compared first. */
  lemma {:induction false} WordsFirst(s: seq<byte>, t: seq<byte>)
    requires CString(s) && CString(t)
    ensures CompareWords(Word(s), Word(t)) != 0 ==> ComparePart(s, t) == CompareWords(Word(s), Word(t))
    ensures CompareWords(Word(s), Word(t)) == 0 ==> ComparePart(s, t) == ComparePart(AfterWord(s), AfterWord(t))
    decreases |s| + |t|
  {
    OrderIsPolicy(s, t);
    if !(AtNumber(s) && AtNumber(t)) {
      if Order(Peek(s, 0)) == Order(Peek(t, 0)) {
        SameCharacter(s, t);
        WordsFirst(s[1..], t[1..]);
        assert Rest(Word(s)) == Word(s[1..]) && Rest(Word(t)) == Word(t[1..]);
      } else {
        OtherCharacter(s, t);
      }
    }
  }

  lemma {:induction false} SuffixText(s: seq<byte>)
    requires CString(s)
    ensures CString(AfterWord(s)) && CString(AfterDigits(s))
    decreases |s|
  {
    if s != [] { SuffixText(s[1..]); }
  }

  /** version_compare_part decides the order of the policy. */
  lemma {:induction false} PolicyAgrees(s: seq<byte>, t: seq<byte>)
    requires CString(s) && CString(t)
    ensures PolicyPart(s, t) == ComparePart(s, t)
    decreases |s| + |t|
  {
    if s != [] || t != [] {
      hide Key, LexZ, Word, AfterWord, AfterDigits, NumberFrom, CompareWords;
      WordsFirst(s, t);
      var x, y := AfterWord(s), AfterWord(t);
      KeyNumbers(x, y);
      SuffixText(s);
      SuffixText(t);
      SuffixText(x);
      SuffixText(y);
      if CompareWords(Word(s), Word(t)) == 0 && Number(x) == Number(y) {
        PolicyShrinks(s);
        PolicyShrinks(t);
        PolicyAgrees(AfterDigits(x), AfterDigits(y));
      }
    }
  }

  lemma PolicyShrinks(s: seq<byte>)
    ensures |AfterDigits(AfterWord(s))| <= |s| && (s != [] ==> |AfterDigits(AfterWord(s))| < |s|)
  {
  }

  // ---- equal keys

  function At(a: seq<int>, i: nat): int { if i < |a| then a[i] else 0 }

  /** The key without zeros at its end. */
  function Trim(a: seq<int>): (r: seq<int>)
    ensures |r| <= |a| && (r != [] ==> r[|r| - 1] != 0)
    ensures forall i: nat :: At(r, i) == At(a, i)
  {
    if a != [] && a[|a| - 1] == 0 then Trim(a[..|a| - 1]) else a
  }

  lemma {:induction false} ZeroIsSame(a: seq<int>, b: seq<int>)
    ensures LexZ(a, b) == 0 <==> forall i: nat :: At(a, i) == At(b, i)
    decreases |a| + |b|
  {
    if a != [] || b != [] {
      var a', b' := if a == [] then [] else a[1..], if b == [] then [] else b[1..];
      ZeroIsSame(a', b');
      assert At(a, 0) == At(b, 0) ==> LexZ(a, b) == LexZ(a', b');
      forall i: nat ensures At(a, i + 1) == At(a', i) && At(b, i + 1) == At(b', i) {}
      if LexZ(a, b) == 0 {
        forall i: nat ensures At(a, i) == At(b, i) { if i > 0 { assert At(a', i - 1) == At(b', i - 1); } }
      }
      if forall i: nat :: At(a, i) == At(b, i) {
        forall i: nat ensures At(a', i) == At(b', i) { assert At(a, i + 1) == At(b, i + 1); }
      }
    }
  }

  lemma TrimDecides(a: seq<int>, b: seq<int>)
    ensures LexZ(a, b) == 0 <==> Trim(a) == Trim(b)
  {
    ZeroIsSame(a, b);
    var x, y := Trim(a), Trim(b);
    if forall i: nat :: At(a, i) == At(b, i) {
      assert forall i: nat :: At(x, i) == At(y, i);
      if |x| > 0 { assert At(x, |x| - 1) == At(y, |x| - 1); }
      if |y| > 0 { assert At(x, |y| - 1) == At(y, |y| - 1); }
      forall i | 0 <= i < |x| ensures x[i] == y[i] { assert At(x, i) == At(y, i); }
    }
    if x == y {
      forall i: nat ensures At(a, i) == At(b, i) { assert At(x, i) == At(a, i) && At(y, i) == At(b, i); }
    }
  }

  // ---- whole versions

  const COLON: byte := 58
  const DASH: byte := 45
  const ULONG := 0x1_0000_0000

  /** Where `c` first occurs, if anywhere. */
  function FindFirst(s: seq<byte>, c: byte): (r: Option<nat>)
    ensures r.Some? ==> r.value < |s| && s[r.value] == c && forall i :: 0 <= i < r.value ==> s[i] != c
    ensures r.None? ==> c !in s
  {
    if s == [] then None else if s[0] == c then Some(0)
    else var r := FindFirst(s[1..], c); if r.Some? then Some(r.value + 1) else None
  }

  /** Where `c` last occurs, if anywhere. */
  function FindLast(s: seq<byte>, c: byte): (r: Option<nat>)
    ensures r.Some? ==> r.value < |s| && s[r.value] == c && forall i :: r.value < i < |s| ==> s[i] != c
    ensures r.None? ==> c !in s
  {
    if s == [] then None else if s[|s| - 1] == c then Some(|s| - 1) else FindLast(s[..|s| - 1], c)
  }

  /** atoi: blanks, a sign, digits. */
  function Atoi(s: seq<byte>): int {
    if s == [] then 0
    else if s[0] == 32 || 9 <= s[0] <= 13 then Atoi(s[1..])
    else if s[0] == DASH then 0 - (Number(s[1..]) as int)
    else if s[0] == 43 then Number(s[1..])
    else Number(s)
  }

  /** The conversion to an unsigned 32-bit number. */
  function Unsigned(x: int): nat { x % ULONG }

  datatype Version = Version(epoch: nat, upstream: seq<byte>, revision: Option<seq<byte>>)

  function SplitRevision(epoch: nat, s: seq<byte>): Version {
    match FindLast(s, DASH)
    case None => Version(epoch, s, None)
    case Some(k) => Version(epoch, s[..k], Some(s[k + 1..]))
  }

  /** An epoch up to the first colon, a revision after the last dash of the rest. */
  function Parse(s: seq<byte>): Version {
    match FindFirst(s, COLON)
    case None => SplitRevision(0, s)
    case Some(k) => SplitRevision(Unsigned(Atoi(s)), s[k + 1..])
  }

  /** The order of the policy on whole versions. */
  function PolicyCompare(a: seq<byte>, b: seq<byte>): int {
    var v, w := Parse(a), Parse(b);
    if v.epoch != w.epoch then Sign(v.epoch - w.epoch)
    else if PolicyPart(v.upstream, w.upstream) != 0 then PolicyPart(v.upstream, w.upstream)
    else PolicyPart(Text(v.revision), Text(w.revision))
  }

  lemma SplitText(s: seq<byte>)
    requires CString(s)
    ensures CString(Afterwards(s)) && CString(SplitRevision(0, Afterwards(s)).upstream)
    ensures CString(Text(SplitRevision(0, Afterwards(s)).revision))
  {
  }

  /** What follows the epoch. */
  function Afterwards(s: seq<byte>): seq<byte> {
    match FindFirst(s, COLON)
    case None => s
    case Some(k) => s[k + 1..]
  }

  method ReadEpoch(s: seq<byte>) returns (epoch: nat, rest: seq<byte>)
    ensures rest == Afterwards(s) && Parse(s) == SplitRevision(epoch, rest)
  {
    hide Atoi, FindLast, Unsigned;
    epoch, rest := 0, s;
    var colon := FindFirst(s, COLON);
    if colon.Some? { epoch, rest := Unsigned(Atoi(s)), s[colon.value + 1..]; }
  }

  method ReadRevision(s: seq<byte>) returns (upstream: seq<byte>, deb: Option<seq<byte>>)
    ensures forall epoch: nat :: SplitRevision(epoch, s) == Version(epoch, upstream, deb)
  {
    upstream, deb := s, None;
    var dash := FindLast(s, DASH);
    if dash.Some? { upstream, deb := s[..dash.value], Some(s[dash.value + 1..]); }
  }

  method VersionCompare(ver1: seq<byte>, ver2: seq<byte>) returns (r: int)
    requires CString(ver1) && CString(ver2)
    ensures Sign(r) == PolicyCompare(ver1, ver2)
    ensures var a, b := Parse(ver1), Parse(ver2);
            a.epoch == b.epoch && Apart(a.upstream, b.upstream) ==>
            r == Order(Peek(a.upstream, 0)) - Order(Peek(b.upstream, 0))
  {
    hide Parse, SplitRevision, Afterwards, PolicyPart, Key, LexZ, Apart, Order;
    var epoch1, v := ReadEpoch(ver1);
    var epoch2, w := ReadEpoch(ver2);
    var upstream1, deb1 := ReadRevision(v);
    var upstream2, deb2 := ReadRevision(w);
    SplitText(ver1);
    SplitText(ver2);
    assert Parse(ver1) == Version(epoch1, upstream1, deb1) && Parse(ver2) == Version(epoch2, upstream2, deb2);
    if epoch1 < epoch2 { return -1; }
    if epoch1 > epoch2 { return 1; }
    PolicyAgrees(upstream1, upstream2);
    PolicyAgrees(Text(deb1), Text(deb2));
    r := VersionComparePart(Some(upstream1), Some(upstream2));
    assert upstream1[0..] == upstream1 && upstream2[0..] == upstream2;
    ApartDiffers(upstream1, upstream2, 0, 0);
    if r == 0 { r := VersionComparePart(deb1, deb2); }
  }

  // ---- the text of a version

  /** A version as it is written, with the epoch's digits if there is an epoch. */
  function Show(epoch: Option<seq<byte>>, upstream: seq<byte>, revision: Option<seq<byte>>): seq<byte> {
    (if epoch.Some? then epoch.value + [COLON] else [])
    + (upstream + (if revision.Some? then [DASH] + revision.value else []))
  }

  lemma {:induction false} DigitsThenColon(s: seq<byte>, t: seq<byte>, acc: nat)
    requires forall i :: 0 <= i < |s| ==> IsDigit(s[i])
    ensures NumberFrom(s + [COLON] + t, acc) == NumberFrom(s, acc)
    decreases |s|
  {
    if s == [] { assert (s + [COLON] + t)[0] == COLON; }
    else {
      assert (s + [COLON] + t)[1..] == s[1..] + [COLON] + t;
      DigitsThenColon(s[1..], t, 10 * acc + (s[0] - 48));
    }
  }

  lemma RevisionSplits(epoch: nat, upstream: seq<byte>, revision: Option<seq<byte>>)
    requires revision.None? ==> DASH !in upstream
    requires revision.Some? ==> DASH !in revision.value
    ensures SplitRevision(epoch, upstream + (if revision.Some? then [DASH] + revision.value else []))
            == Version(epoch, upstream, revision)
  {
    var s := upstream + (if revision.Some? then [DASH] + revision.value else []);
    if revision.Some? {
      assert s[|upstream|] == DASH;
      forall i | |upstream| < i < |s| ensures s[i] != DASH { assert s[i] == revision.value[i - |upstream| - 1]; }
      assert FindLast(s, DASH) == Some(|upstream|);
      assert s[..|upstream|] == upstream && s[|upstream| + 1..] == revision.value;
    } else {
      assert s == upstream;
    }
  }

  /** Every version written by the rules of the policy is taken apart into the pieces it was written from. */
  lemma ParseInvertsShow(epoch: Option<seq<byte>>, upstream: seq<byte>, revision: Option<seq<byte>>)
    requires epoch.Some? ==>
             epoch.value != [] && (forall i :: 0 <= i < |epoch.value| ==> IsDigit(epoch.value[i])) &&
               Number(epoch.value) < ULONG
    requires epoch.None? ==> COLON !in upstream && (revision.Some? ==> COLON !in revision.value)
    requires revision.None? ==> DASH !in upstream
    requires revision.Some? ==> DASH !in revision.value
    ensures Parse(Show(epoch, upstream, revision))
            == Version(if epoch.Some? then Number(epoch.value) else 0, upstream, revision)
  {
    hide NumberFrom, FindLast;
    var rest := upstream + (if revision.Some? then [DASH] + revision.value else []);
    var s := Show(epoch, upstream, revision);
    if epoch.Some? {
      var e := epoch.value;
      assert s == e + [COLON] + rest;
      assert s[|e|] == COLON && forall i :: 0 <= i < |e| ==> s[i] == e[i];
      assert FindFirst(s, COLON) == Some(|e|);
      assert s[|e| + 1..] == rest;
      DigitsThenColon(e, rest, 0);
      RevisionSplits(Number(e), upstream, revision);
    } else {
      assert s == rest && COLON !in s;
      RevisionSplits(0, upstream, revision);
    }
  }

  // ---- what decides

  /** A version in the pieces it is written from. */
  datatype Written = Written(epoch: Option<seq<byte>>, upstream: seq<byte>, revision: Option<seq<byte>>)

  ghost predicate Digits(s: seq<byte>) { forall i :: 0 <= i < |s| ==> IsDigit(s[i]) }

  /** Written by the rules of the policy. */
  ghost predicate Proper(v: Written) {
    && (v.epoch.Some? ==> v.epoch.value != [] && Digits(v.epoch.value) && Number(v.epoch.value) < ULONG)
    && (v.epoch.None? ==> COLON !in v.upstream && (v.revision.Some? ==> COLON !in v.revision.value))
    && (if v.revision.Some? then DASH !in v.revision.value else DASH !in v.upstream)
    && CString(v.upstream) && CString(Text(v.revision))
  }

  function EpochOf(v: Written): nat { if v.epoch.Some? then Number(v.epoch.value) else 0 }

  function Shown(v: Written): seq<byte> { Show(v.epoch, v.upstream, v.revision) }

  lemma ShownParses(v: Written)
    requires Proper(v)
    ensures CString(Shown(v)) && Parse(Shown(v)) == Version(EpochOf(v), v.upstream, v.revision)
  {
    hide Parse, NumberFrom;
    ParseInvertsShow(v.epoch, v.upstream, v.revision);
  }

  /** The lower epoch makes the earlier version, whatever follows; then the upstream part decides, then the revision. */
  lemma WhatDecides(v: Written, w: Written)
    requires Proper(v) && Proper(w)
    ensures EpochOf(v) < EpochOf(w) ==> PolicyCompare(Shown(v), Shown(w)) == -1
    ensures EpochOf(v) > EpochOf(w) ==> PolicyCompare(Shown(v), Shown(w)) == 1
    ensures EpochOf(v) == EpochOf(w) && PolicyPart(v.upstream, w.upstream) != 0 ==>
            PolicyCompare(Shown(v), Shown(w)) == PolicyPart(v.upstream, w.upstream)
    ensures EpochOf(v) == EpochOf(w) && PolicyPart(v.upstream, w.upstream) == 0 ==>
            PolicyCompare(Shown(v), Shown(w)) == PolicyPart(Text(v.revision), Text(w.revision))
  {
    hide Parse, PolicyPart, Proper, EpochOf, Shown;
    ShownParses(v);
    ShownParses(w);
  }

  /** The same of the number that version_compare returns. */
  method CompareWritten(v: Written, w: Written) returns (r: int)
    requires Proper(v) && Proper(w)
    ensures EpochOf(v) < EpochOf(w) ==> r < 0
    ensures EpochOf(v) > EpochOf(w) ==> r > 0
    ensures EpochOf(v) == EpochOf(w) && PolicyPart(v.upstream, w.upstream) != 0 ==>
            Sign(r) == PolicyPart(v.upstream, w.upstream)
    ensures EpochOf(v) == EpochOf(w) && PolicyPart(v.upstream, w.upstream) == 0 ==>
            Sign(r) == PolicyPart(Text(v.revision), Text(w.revision))
  {
    hide PolicyPart, PolicyCompare, Parse, Proper, EpochOf, Shown, DebVersion.Apart, Order;
    ShownParses(v);
    ShownParses(w);
    WhatDecides(v, w);
    r := VersionCompare(Shown(v), Shown(w));
  }

  /** Parts that are numbers are compared as numbers. */
  lemma NumbersCompare(s: seq<byte>, t: seq<byte>)
    requires s != [] && t != [] && Digits(s) && Digits(t)
    ensures PolicyPart(s, t) == Sign(Number(s) - Number(t))
  {
    hide NumberFrom;
    AllDigits(s);
    AllDigits(t);
  }

  lemma {:induction false} AllDigits(s: seq<byte>)
    requires Digits(s)
    ensures AfterDigits(s) == []
  {
    if s != [] { AllDigits(s[1..]); }
  }

  /** A tilde is before the end, the end before letters, letters before the rest, and a letter before a later one. */
  lemma CharactersCompare(s: seq<byte>, t: seq<byte>)
    ensures s != [] && s[0] == 0x7e && (t == [] || t[0] != 0x7e) ==> PolicyPart(s, t) == -1
    ensures s == [] && t != [] && t[0] != 0x7e && !IsDigit(t[0]) ==> PolicyPart(s, t) == -1
    ensures s != [] && t != [] && IsAlpha(s[0]) && t[0] != 0x7e && !IsDigit(t[0]) && !IsAlpha(t[0]) ==>
            PolicyPart(s, t) == -1
    ensures s != [] && t != [] && IsAlpha(s[0]) && IsAlpha(t[0]) && s[0] < t[0] ==> PolicyPart(s, t) == -1
  {
    hide NumberFrom;
  }

  lemma NineBeforeTen()
    ensures PolicyPart([49, 46, 57], [49, 46, 49, 48]) == -1
  {
    var s: seq<byte>, t: seq<byte> := [49, 46, 57], [49, 46, 49, 48];
    assert s[1..] == [46, 57] && t[1..] == [46, 49, 48];
    assert s[1..][1..] == [57] && t[1..][1..] == [49, 48] && [49, 48][1..] == [48];
    assert NumberFrom([57], 0) == NumberFrom([57][1..], 9) == 9;
    assert NumberFrom([49, 48], 0) == NumberFrom([48], 1) == NumberFrom([48][1..], 10) == 10;
    NumbersCompare([57], [49, 48]);
    assert Word(s[1..]) == [46] && Word(t[1..]) == [46];
    assert AfterWord(s[1..]) == [57] && AfterWord(t[1..]) == [49, 48];
    assert PolicyPart(s[1..], t[1..]) == -1;
    assert Number(s) == NumberFrom(s[1..], 1) == 1 && Number(t) == NumberFrom(t[1..], 1) == 1;
  }

  /** "1.9" is before "1.10", and "1:1.0" after "2.0". */
  method Samples() returns (x: int, y: int)
    ensures x < 0 < y
  {
    hide PolicyPart, Show;
    NineBeforeTen();
    x := CompareWritten(Written(None, [49, 46, 57], None), Written(None, [49, 46, 49, 48], None));
    var one: seq<byte> := [49];
    assert one[1..] == [] && NumberFrom(one, 0) == NumberFrom([], 1) == 1;
    y := CompareWritten(Written(Some(one), [49, 46, 48], None), Written(None, [50, 46, 48], None));
  }

  // ---- a total preorder

  lemma PartsText(s: seq<byte>)
    requires CString(s)
    ensures CString(Parse(s).upstream) && CString(Text(Parse(s).revision))
  {
  }

  /** A version up to equivalence: its epoch and the keys of its two parts. */
  function Canonical(s: seq<byte>): (nat, seq<int>, seq<int>) {
    var v := Parse(s);
    (v.epoch, Trim(Key(v.upstream)), Trim(Key(Text(v.revision))))
  }

  lemma ByKeys(a: seq<byte>, b: seq<byte>)
    requires CString(a) && CString(b)
    ensures var v, w := Parse(a), Parse(b);
      PolicyPart(v.upstream, w.upstream) == LexZ(Key(v.upstream), Key(w.upstream)) &&
      PolicyPart(Text(v.revision), Text(w.revision)) == LexZ(Key(Text(v.revision)), Key(Text(w.revision)))
  {
    hide PolicyPart, Key, LexZ, FindFirst, FindLast, Atoi;
    PartsText(a);
    PartsText(b);
    PolicyAgrees(Parse(a).upstream, Parse(b).upstream);
    PolicyAgrees(Text(Parse(a).revision), Text(Parse(b).revision));
  }

  lemma Antisymmetric(a: seq<byte>, b: seq<byte>)
    requires CString(a) && CString(b)
    ensures PolicyCompare(a, b) == -PolicyCompare(b, a)
  {
    hide Parse, PolicyPart, Key, LexZ, Trim;
    ByKeys(a, b);
    ByKeys(b, a);
    var v, w := Parse(a), Parse(b);
    LexZReverse(Key(v.upstream), Key(w.upstream));
    LexZReverse(Key(Text(v.revision)), Key(Text(w.revision)));
  }

  lemma Transitive(a: seq<byte>, b: seq<byte>, c: seq<byte>)
    requires CString(a) && CString(b) && CString(c)
    requires PolicyCompare(a, b) <= 0 && PolicyCompare(b, c) <= 0
    ensures PolicyCompare(a, c) <= 0
    ensures PolicyCompare(a, c) == 0 ==> PolicyCompare(a, b) == 0 && PolicyCompare(b, c) == 0
  {
    hide Parse, PolicyPart, Key, LexZ, Trim;
    ByKeys(a, b);
    ByKeys(b, c);
    ByKeys(a, c);
    var u, v, w := Parse(a), Parse(b), Parse(c);
    if u.epoch == v.epoch == w.epoch {
      LexZTransitive(Key(u.upstream), Key(v.upstream), Key(w.upstream));
      if LexZ(Key(u.upstream), Key(w.upstream)) == 0 {
        LexZTransitive(Key(Text(u.revision)), Key(Text(v.revision)), Key(Text(w.revision)));
      }
    }
  }

  /** Zero exactly on versions that are the same up to equivalence. */
  lemma ZeroIsEquivalent(a: seq<byte>, b: seq<byte>)
    requires CString(a) && CString(b)
    ensures PolicyCompare(a, b) == 0 <==> Canonical(a) == Canonical(b)
  {
    hide Parse, PolicyPart, Key, LexZ, Trim;
    ByKeys(a, b);
    var v, w := Parse(a), Parse(b);
    TrimDecides(Key(v.upstream), Key(w.upstream));
    TrimDecides(Key(Text(v.revision)), Key(Text(w.revision)));
  }

  // ---- test_version

  const VER_EQUAL := 1
  const VER_LESS := 2
  const VER_LESS_EQUAL := 3
  const VER_MORE := 4
  const VER_MORE_EQUAL := 5
  const VER_ANY := 6

  /** What each operator asks of two versions; a number that is no operator asks for the impossible. */
  ghost predicate Meets(a: seq<byte>, b: seq<byte>, operator: nat) {
    match operator
    case 1 => PolicyCompare(a, b) == 0
    case 2 => PolicyCompare(a, b) < 0
    case 3 => PolicyCompare(a, b) <= 0
    case 4 => PolicyCompare(a, b) > 0
    case 5 => PolicyCompare(a, b) >= 0
    case 6 => true
    case _ => false
  }

  method TestVersion(version1: seq<byte>, version2: seq<byte>, operator: nat) returns (b: bool)
    requires CString(version1) && CString(version2)
    ensures b <==> Meets(version1, version2, operator)
  {
    hide PolicyCompare;
    var result := VersionCompare(version1, version2);
    if operator == VER_ANY { return true; }
    if operator == VER_EQUAL { return result == 0; }
    if operator == VER_LESS { return result < 0; }
    if operator == VER_LESS_EQUAL { return result <= 0; }
    if operator == VER_MORE { return result > 0; }
    if operator == VER_MORE_EQUAL { return result >= 0; }
    return false;
  }

  /** Exactly one of less, equal and more; the other two are their unions; more is less the other way around. */
  lemma OperatorsAgree(a: seq<byte>, b: seq<byte>)
    requires CString(a) && CString(b)
    ensures Meets(a, b, VER_EQUAL) <==> Canonical(a) == Canonical(b)
    ensures Meets(a, b, VER_LESS) <==> Meets(b, a, VER_MORE)
    ensures Meets(a, b, VER_LESS_EQUAL) <==> Meets(a, b, VER_LESS) || Meets(a, b, VER_EQUAL)
    ensures Meets(a, b, VER_LESS_EQUAL) <==> !Meets(a, b, VER_MORE)
    ensures Meets(a, b, VER_MORE_EQUAL) <==> Meets(b, a, VER_LESS_EQUAL)
    ensures !(Meets(a, b, VER_LESS) && Meets(a, b, VER_EQUAL)) && !(Meets(a, b, VER_LESS) && Meets(b, a, VER_LESS))
  {
    hide PolicyCompare, Canonical;
    Antisymmetric(a, b);
    ZeroIsEquivalent(a, b);
  }

  /** The version that the policy sorts first. */
  ghost predicate Earlier(v: Written, w: Written) {
    EpochOf(v) < EpochOf(w) ||
    (EpochOf(v) == EpochOf(w) &&
     (PolicyPart(v.upstream, w.upstream) < 0 ||
      (PolicyPart(v.upstream, w.upstream) == 0 && PolicyPart(Text(v.revision), Text(w.revision)) < 0)))
  }

  /** Less means earlier, more means later. */
  lemma MeetsIsEarlier(v: Written, w: Written)
    requires Proper(v) && Proper(w)
    ensures Meets(Shown(v), Shown(w), VER_LESS) <==> Earlier(v, w)
    ensures Meets(Shown(v), Shown(w), VER_MORE) <==> Earlier(w, v)
    ensures Meets(Shown(v), Shown(w), VER_LESS_EQUAL) <==> !Earlier(w, v)
    ensures Meets(Shown(v), Shown(w), VER_MORE_EQUAL) <==> !Earlier(v, w)
    ensures Meets(Shown(v), Shown(w), VER_EQUAL) <==> !Earlier(v, w) && !Earlier(w, v)
    ensures Meets(Shown(v), Shown(w), VER_ANY)
  {
    hide PolicyPart, PolicyCompare, Parse, Proper, EpochOf, Shown;
    ShownParses(v);
    ShownParses(w);
    WhatDecides(v, w);
    WhatDecides(w, v);
    Antisymmetric(Shown(v), Shown(w));
  }

  /** Equivalent versions meet the same demands. */
  lemma EquivalentMeet(a: seq<byte>, a': seq<byte>, b: seq<byte>, operator: nat)
    requires CString(a) && CString(a') && CString(b) && PolicyCompare(a, a') == 0
    ensures Meets(a, b, operator) <==> Meets(a', b, operator)
    ensures Meets(b, a, operator) <==> Meets(b, a', operator)
  {
    hide PolicyCompare;
    Antisymmetric(a, a');
    Antisymmetric(a, b);
    Antisymmetric(a', b);
    if PolicyCompare(a, b) <= 0 { Transitive(a', a, b); }
    if PolicyCompare(a', b) <= 0 { Transitive(a, a', b); }
    if PolicyCompare(b, a) <= 0 { Transitive(b, a, a'); }
    if PolicyCompare(b, a') <= 0 { Transitive(b, a', a); }
  }

  /** The result need not be -1, 0 or 1: "a" against "c" gives -2. */
  method LettersApart() returns (r: int)
    ensures r == -2
  {
    var a: seq<byte>, c: seq<byte> := [97], [99];
    ParseInvertsShow(None, a, None);
    ParseInvertsShow(None, c, None);
    assert Show(None, a, None) == a && Show(None, c, None) == c;
    r := VersionCompare(a, c);
  }
}
