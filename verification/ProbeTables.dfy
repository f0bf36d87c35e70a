/** What the searches of dpkg.c find in a table that is only ever added to. */
module ProbeTables {
  import opened Bits
  import opened Probing

  type Key = seq<byte>

  // ---- make_hash

  const WORD := 0x1_0000_0000

  /** What the i-th character adds. */
  function Mixed(before: nat, here: nat, i: nat): nat { Shl(here + before, (here * i) % 24) }

  /** The sum after the characters before the i-th, in 32 bits. */
  function HashNum(key: Key, i: nat): (h: nat)
    requires i <= |key|
    ensures h < WORD
  {
    if i == 0 then 0
    else if i == 1 then key[0]
    else (HashNum(key, i - 1) + Mixed(key[i - 2], key[i - 1], i - 1)) % WORD
  }

  /** Where the probing starts and by how much it goes down. */
  function Hash(key: Key, p: nat): (h: (nat, nat))
    requires p >= 2
    ensures h.0 < p && 1 <= h.1 < p
  {
    (HashNum(key, |key|) % p, 1 + HashNum(key, |key|) % (p - 1))
  }

  method MakeHash(key: Key, p: nat) returns (start: nat, decrement: nat)
    requires p >= 2
    ensures (start, decrement) == Hash(key, p)
    ensures start < p && 1 <= decrement < p
  {
    hide Mixed;
    var hashNum: nat := if key == [] then 0 else key[0];
    var i := 1;
    while i < |key|
      invariant key == [] || i <= |key|
      invariant hashNum == if key == [] then 0 else HashNum(key, i)
    {
      hashNum := (hashNum + Mixed(key[i - 1], key[i], i)) % WORD;
      i := i + 1;
    }
    start, decrement := hashNum % p, 1 + hashNum % (p - 1);
  }

  /** The name "abc" is first looked for at 97 + (195 << 2) + (197 << 6), then in steps of one more than that. */
  lemma HashOfAbc()
    ensures Hash([97, 98, 99], NAME_HASH_PRIME) == (13485, 13486)
  {
    hide Shl;
    var key: Key := [97, 98, 99];
    assert Pow2(2) == 4 && Pow2(6) == 64 by { assert Pow2(5) == 32; }
    ShlIsProduct(195, 2);
    ShlIsProduct(197, 6);
    assert Mixed(97, 98, 1) == 780 && Mixed(98, 99, 2) == 12608;
    assert HashNum(key, 1) == 97;
    assert HashNum(key, 2) == 877;
    assert HashNum(key, 3) == 13485;
  }

  // ---- chains

  function Probe(key: Key, p: nat, k: nat): (s: nat)
    requires p >= 2
    ensures s < p
  {
    Slot(Hash(key, p).0, Hash(key, p).1, p, k)
  }

  /** The first `k` probes for `key` meet occupied slots. `keys` gives the string each slot is hashed by. */
  ghost predicate Passed(keys: seq<Option<Key>>, p: nat, key: Key, k: nat)
    requires 2 <= p <= |keys|
  {
    forall j: nat :: j < k ==> keys[Probe(key, p, j)].Some?
  }

  ghost predicate OnChain(keys: seq<Option<Key>>, p: nat, key: Key, s: nat)
    requires 2 <= p <= |keys|
  {
    exists k: nat :: k < p && Probe(key, p, k) == s && Passed(keys, p, key, k)
  }

  /** Nothing is stored behind a gap. */
  ghost predicate Chained(keys: seq<Option<Key>>, p: nat) {
    2 <= p <= |keys| && forall s :: 0 <= s < p && keys[s].Some? ==> OnChain(keys, p, keys[s].value, s)
  }

  /** A search stops at the first probe that is free or wanted. */
  ghost predicate StopsAfter(keys: seq<Option<Key>>, p: nat, key: Key, wanted: set<nat>, k: nat)
    requires 2 <= p <= |keys|
  {
    Passed(keys, p, key, k) && forall j: nat :: j < k ==> Probe(key, p, j) !in wanted
  }

  ghost predicate Lands(keys: seq<Option<Key>>, p: nat, key: Key, wanted: set<nat>, r: nat)
    requires 2 <= p <= |keys|
  {
    r < p && (keys[r].None? || r in wanted) &&
    exists k: nat :: k < p && Probe(key, p, k) == r && StopsAfter(keys, p, key, wanted, k)
  }

  /** A search for which some slot is free or wanted stops before it has gone around. */
  lemma StopsInTime(keys: seq<Option<Key>>, p: nat, key: Key, wanted: set<nat>, k: nat, s: nat)
    requires Prime(p) && p <= |keys| && s < p && (keys[s].None? || s in wanted)
    requires StopsAfter(keys, p, key, wanted, k)
    ensures k < p
  {
    hide Slot, Hash;
    var j := Covers(Hash(key, p).0, Hash(key, p).1, p, s);
    assert Probe(key, p, j) == s;
  }

  /** A search stops exactly if some slot is free or wanted; otherwise it goes around for ever. */
  lemma StopsExactlyIf(keys: seq<Option<Key>>, p: nat, key: Key, wanted: set<nat>)
    requires Prime(p) && p <= |keys|
    ensures (exists r: nat :: Lands(keys, p, key, wanted, r)) <==>
            (exists s: nat :: s < p && (keys[s].None? || s in wanted))
    ensures (forall s: nat :: s < p ==> keys[s].Some? && s !in wanted) <==>
            (forall k: nat :: StopsAfter(keys, p, key, wanted, k))
  {
    hide Slot, Hash, Prime;
    PrimeSize(p);
    if s: nat :| s < p && (keys[s].None? || s in wanted) {
      var k := StopsAt(keys, p, key, wanted, s);
      assert Lands(keys, p, key, wanted, Probe(key, p, k));
      assert !StopsAfter(keys, p, key, wanted, k + 1);
    } else {
      forall k: nat ensures StopsAfter(keys, p, key, wanted, k) {
        forall j: nat | j < k ensures keys[Probe(key, p, j)].Some? && Probe(key, p, j) !in wanted {}
      }
    }
  }

  /** The first probe that is free or wanted. */
  lemma StopsAt(keys: seq<Option<Key>>, p: nat, key: Key, wanted: set<nat>, s: nat) returns (k: nat)
    requires Prime(p) && p <= |keys| && s < p && (keys[s].None? || s in wanted)
    ensures k < p && StopsAfter(keys, p, key, wanted, k) && (keys[Probe(key, p, k)].None? || Probe(key, p, k) in wanted)
  {
    hide Probe, Prime;
    PrimeSize(p);
    k := 0;
    while keys[Probe(key, p, k)].Some? && Probe(key, p, k) !in wanted
      invariant StopsAfter(keys, p, key, wanted, k)
      decreases p - k
    {
      StopsInTime(keys, p, key, wanted, k, s);
      k := k + 1;
    }
    StopsInTime(keys, p, key, wanted, k, s);
  }

  /** What a search that ends at a free slot did not find is not there. */
  lemma FreeMeansAbsent(keys: seq<Option<Key>>, p: nat, key: Key, wanted: set<nat>, r: nat, s: nat)
    requires Chained(keys, p) && Lands(keys, p, key, wanted, r) && keys[r].None?
    requires s < p && keys[s] == Some(key)
    ensures s !in wanted
  {
    hide Probe;
    var k: nat :| k < p && Probe(key, p, k) == r && StopsAfter(keys, p, key, wanted, k);
    assert OnChain(keys, p, key, s);
    var j: nat :| j < p && Probe(key, p, j) == s && Passed(keys, p, key, j);
  }

  lemma PassedMore(keys: seq<Option<Key>>, p: nat, key: Key, k: nat, r: nat, new_: Key)
    requires 2 <= p <= |keys| && r < p && Passed(keys, p, key, k)
    ensures Passed(keys[r := Some(new_)], p, key, k)
  {
    hide Probe;
  }

  /** Storing where the search ended leaves no gap before anything. */
  lemma InsertChained(keys: seq<Option<Key>>, p: nat, key: Key, wanted: set<nat>, r: nat)
    requires Chained(keys, p) && Lands(keys, p, key, wanted, r)
    requires keys[r].None? || keys[r] == Some(key)
    ensures Chained(keys[r := Some(key)], p)
  {
    hide Probe, Passed;
    var after := keys[r := Some(key)];
    forall s | 0 <= s < p && after[s].Some? ensures OnChain(after, p, after[s].value, s) {
      if s == r {
        var k: nat :| k < p && Probe(key, p, k) == r && StopsAfter(keys, p, key, wanted, k);
        PassedMore(keys, p, key, k, r, key);
      } else {
        assert OnChain(keys, p, keys[s].value, s);
        var k: nat :| k < p && Probe(keys[s].value, p, k) == s && Passed(keys, p, keys[s].value, k);
        PassedMore(keys, p, keys[s].value, k, r, key);
      }
    }
  }

  // ---- the names

  /** No string is stored twice. */
  ghost predicate Distinct(names: seq<Option<Key>>, p: nat) {
    p <= |names| && forall a, b :: 0 <= a < p && 0 <= b < p && names[a].Some? && names[a] == names[b] ==> a == b
  }

  ghost predicate NameTable(names: seq<Option<Key>>, p: nat) { Chained(names, p) && Distinct(names, p) }

  ghost predicate Room(names: seq<Option<Key>>, p: nat, key: Key) {
    p <= |names| && exists s :: 0 <= s < p && (names[s].None? || names[s] == Some(key))
  }

  /** The slots that hold a string. */
  ghost function Holding(names: seq<Option<Key>>, p: nat, key: Key): set<nat>
    requires p <= |names|
  {
    set s: nat | s < p && names[s] == Some(key)
  }

  /** Where the search for a string ends, if it does. */
  function FindFrom(names: seq<Option<Key>>, p: nat, key: Key, k: nat): (r: nat)
    requires 2 <= p <= |names|
    ensures r <= p
    decreases p - k
  {
    if k >= p then p
    else if names[Probe(key, p, k)].None? || names[Probe(key, p, k)] == Some(key) then Probe(key, p, k)
    else FindFrom(names, p, key, k + 1)
  }

  function Find(names: seq<Option<Key>>, p: nat, key: Key): (r: nat)
    requires 2 <= p <= |names|
    ensures r <= p
  {
    FindFrom(names, p, key, 0)
  }

  function Intern(names: seq<Option<Key>>, p: nat, key: Key): (r: seq<Option<Key>>)
    requires 2 <= p <= |names|
    ensures |r| == |names|
  {
    if Find(names, p, key) < p then names[Find(names, p, key) := Some(key)] else names
  }

  lemma {:induction false} FindFromLands(names: seq<Option<Key>>, p: nat, key: Key, k: nat)
    requires Prime(p) && Room(names, p, key) && StopsAfter(names, p, key, Holding(names, p, key), k)
    ensures FindFrom(names, p, key, k) < p && Lands(names, p, key, Holding(names, p, key), FindFrom(names, p, key, k))
    decreases p - k
  {
    hide Probe, Prime;
    PrimeSize(p);
    var s :| 0 <= s < p && (names[s].None? || names[s] == Some(key));
    StopsInTime(names, p, key, Holding(names, p, key), k, s);
    var a := Probe(key, p, k);
    if names[a].Some? && names[a] != Some(key) {
      assert StopsAfter(names, p, key, Holding(names, p, key), k + 1);
      FindFromLands(names, p, key, k + 1);
    }
  }

  lemma PrimeSize(p: nat)
    requires Prime(p)
    ensures p >= 2
  {
  }

  lemma FindLands(names: seq<Option<Key>>, p: nat, key: Key)
    requires Prime(p) && Room(names, p, key)
    ensures Find(names, p, key) < p && Lands(names, p, key, Holding(names, p, key), Find(names, p, key))
  {
    hide FindFrom, Probe, Prime;
    PrimeSize(p);
    FindFromLands(names, p, key, 0);
  }

  /** Everything stored stays where it is. */
  ghost predicate Grows(before: seq<Option<Key>>, after: seq<Option<Key>>) {
    |before| == |after| && forall s :: 0 <= s < |before| && before[s].Some? ==> after[s] == before[s]
  }

  lemma InternKeeps(names: seq<Option<Key>>, p: nat, key: Key)
    requires Prime(p) && NameTable(names, p) && Room(names, p, key)
    ensures NameTable(Intern(names, p, key), p) && Grows(names, Intern(names, p, key))
    ensures Find(names, p, key) < p && Intern(names, p, key)[Find(names, p, key)] == Some(key)
  {
    hide Find, Prime, Chained, OnChain;
    PrimeSize(p);
    FindLands(names, p, key);
    var r, wanted := Find(names, p, key), Holding(names, p, key);
    InsertChained(names, p, key, wanted, r);
    if names[r].None? {
      forall s: nat | s < p && names[s] == Some(key) ensures false { FreeMeansAbsent(names, p, key, wanted, r, s); }
    }
  }

  // ---- whole runs

  ghost function Run(names: seq<Option<Key>>, p: nat, keys: seq<Key>): (r: seq<Option<Key>>)
    requires 2 <= p <= |names|
    ensures |r| == |names|
    decreases |keys|
  {
    if keys == [] then names else Intern(Run(names, p, keys[..|keys| - 1]), p, keys[|keys| - 1])
  }

  /** The slot the i-th call of a run returns. */
  ghost function Slots(names: seq<Option<Key>>, p: nat, keys: seq<Key>, i: nat): nat
    requires 2 <= p <= |names| && i < |keys|
  {
    Find(Run(names, p, keys[..i]), p, keys[i])
  }

  /** The strings in the table. */
  ghost function Strings(names: seq<Option<Key>>, p: nat): set<Key>
    requires p <= |names|
  {
    set s | 0 <= s < p && names[s].Some? :: names[s].value
  }

  lemma {:induction false} StringsOfFull(names: seq<Option<Key>>, n: nat)
    requires Distinct(names, n) && forall s :: 0 <= s < n ==> names[s].Some?
    ensures |Strings(names, n)| == n
    decreases n
  {
    if n > 0 {
      StringsOfFull(names, n - 1);
      forall s | 0 <= s < n - 1 ensures names[s].value != names[n - 1].value {}
      assert names[n - 1].value !in Strings(names, n - 1);
      assert Strings(names, n) == Strings(names, n - 1) + {names[n - 1].value};
    } else {
      assert Strings(names, n) == {};
    }
  }

  lemma MoreStrings(a: set<Key>, b: set<Key>)
    requires a <= b
    ensures |a| <= |b|
    decreases a
  {
    if x :| x in a { MoreStrings(a - {x}, b - {x}); }
  }

  /** As long as no more strings than slots are named, there is room. */
  lemma Enough(names: seq<Option<Key>>, p: nat, key: Key, all: set<Key>)
    requires Distinct(names, p) && Strings(names, p) <= all && key in all && |all| <= p
    ensures Room(names, p, key)
  {
    if !Room(names, p, key) {
      forall s | 0 <= s < p ensures names[s].Some? {}
      StringsOfFull(names, p);
      MoreStrings(Strings(names, p) + {key}, all);
    }
  }

  /** The strings a run may meet are no more than the slots. */
  ghost predicate Fits(names: seq<Option<Key>>, p: nat, keys: seq<Key>, all: set<Key>) {
    p <= |names| && |all| <= p && Strings(names, p) <= all && forall i :: 0 <= i < |keys| ==> keys[i] in all
  }

  lemma GrowsTransitive(a: seq<Option<Key>>, b: seq<Option<Key>>, c: seq<Option<Key>>)
    requires Grows(a, b) && Grows(b, c)
    ensures Grows(a, c)
  {
    forall s | 0 <= s < |a| && a[s].Some? ensures c[s] == a[s] { assert b[s] == a[s]; }
  }

  lemma {:induction false} RunKeeps(names: seq<Option<Key>>, p: nat, keys: seq<Key>, all: set<Key>)
    requires Prime(p) && NameTable(names, p) && Fits(names, p, keys, all)
    ensures NameTable(Run(names, p, keys), p) && Grows(names, Run(names, p, keys))
    ensures Strings(Run(names, p, keys), p) <= all
    decreases |keys|
  {
    hide Prime, NameTable, Find, Grows;
    PrimeSize(p);
    if keys == [] { GrowsSame(names); }
    else {
      var before, key := Run(names, p, keys[..|keys| - 1]), keys[|keys| - 1];
      RunKeeps(names, p, keys[..|keys| - 1], all);
      TableDistinct(before, p);
      Enough(before, p, key, all);
      InternKeeps(before, p, key);
      GrowsTransitive(names, before, Intern(before, p, key));
    }
  }

  lemma GrowsSame(a: seq<Option<Key>>)
    ensures Grows(a, a)
  {
  }

  lemma TableDistinct(names: seq<Option<Key>>, p: nat)
    requires NameTable(names, p)
    ensures Distinct(names, p)
  {
  }

  /** After a run, what its i-th call stored is still where that call put it. */
  lemma {:induction false} RunRemembers(names: seq<Option<Key>>, p: nat, keys: seq<Key>, all: set<Key>, i: nat)
    requires Prime(p) && NameTable(names, p) && Fits(names, p, keys, all) && i < |keys|
    ensures Slots(names, p, keys, i) < p && Run(names, p, keys)[Slots(names, p, keys, i)] == Some(keys[i])
    decreases |keys|
  {
    hide Prime, NameTable, Find, Intern;
    PrimeSize(p);
    var n := |keys| - 1;
    var before := Run(names, p, keys[..n]);
    RunKeeps(names, p, keys[..n], all);
    TableDistinct(before, p);
    Enough(before, p, keys[n], all);
    InternKeeps(before, p, keys[n]);
    if i < n {
      RunRemembers(names, p, keys[..n], all, i);
      assert keys[..n][..i] == keys[..i];
    }
  }

  /**
   * Over any run of searches, as long as the strings are no more than the slots: nothing stored moves, no string is
   * stored twice, and two calls return the same slot exactly when they ask for the same string.
   */
  lemma RunInterns(names: seq<Option<Key>>, p: nat, keys: seq<Key>, i: nat, j: nat)
    requires Prime(p) && NameTable(names, p) && i < |keys| && j < |keys|
    requires |Strings(names, p) + (set k | k in keys)| <= p
    ensures NameTable(Run(names, p, keys), p) && Grows(names, Run(names, p, keys))
    ensures Slots(names, p, keys, i) < p && Run(names, p, keys)[Slots(names, p, keys, i)] == Some(keys[i])
    ensures Slots(names, p, keys, i) == Slots(names, p, keys, j) <==> keys[i] == keys[j]
  {
    hide Prime, Find, Intern, Run, Slots, Grows, Chained;
    var all := Strings(names, p) + (set k | k in keys);
    RunKeeps(names, p, keys, all);
    RunRemembers(names, p, keys, all, i);
    RunRemembers(names, p, keys, all, j);
  }
}
