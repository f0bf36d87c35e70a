/** The three tables of dpkg.c: names, packages and statuses. */
module DpkgTables {
  import opened Bits
  import opened Probing
  import opened ProbeTables
  import opened DebVersion
  import opened DebOrder

  datatype Node = Node(name: nat, version: nat)

  datatype StatusNode = StatusNode(package: nat, status: nat)

  type Names = seq<Option<Key>>
  type Packages = seq<Option<Node>>
  type Statuses = seq<Option<StatusNode>>

  /** The string "unknown". */
  const UNKNOWN: Key := [117, 110, 107, 110, 111, 119, 110]

  // ---- what the tables keep

  ghost predicate Stored(n: Names, i: nat) { i < NAME_HASH_PRIME && i < |n| && n[i].Some? && CString(n[i].value) }

  ghost predicate NamesOk(n: Names) {
    |n| == NAME_HASH_PRIME + 1 && NameTable(n, NAME_HASH_PRIME) &&
    forall i :: 0 <= i < NAME_HASH_PRIME && n[i].Some? ==> CString(n[i].value)
  }

  ghost predicate Named(n: Names, node: Node) { Stored(n, node.name) && Stored(n, node.version) }

  ghost function NameOf(n: Names, node: Node): Key
    requires Named(n, node)
  {
    n[node.name].value
  }

  /** The string each slot of the package table is hashed by. */
  ghost function PackageKeys(n: Names, k: Packages): (r: seq<Option<Key>>)
    requires AllNamed(n, k)
    ensures |r| == |k|
  {
    seq(|k|, i requires 0 <= i < |k| => if k[i].Some? then Some(NameOf(n, k[i].value)) else None)
  }

  ghost predicate AllNamed(n: Names, k: Packages) {
    forall i :: 0 <= i < |k| && k[i].Some? ==> Named(n, k[i].value)
  }

  /** What a search for a package asks of a node. */
  ghost predicate Matches(n: Names, node: Node, name: nat, version: nat, operator: nat)
    requires Named(n, node) && (operator != VER_ANY ==> Stored(n, version))
  {
    node.name == name && (operator == VER_ANY || Meets(n[node.version].value, n[version].value, operator))
  }

  /** A name and a version up to equivalence. */
  ghost function Identity(n: Names, node: Node): (Key, (nat, seq<int>, seq<int>))
    requires Named(n, node)
  {
    (NameOf(n, node), DebOrder.Canonical(n[node.version].value))
  }

  /** No two nodes have the same name and equal versions. */
  ghost predicate NoTwins(n: Names, k: Packages)
    requires AllNamed(n, k)
  {
    forall i, j :: 0 <= i < j < |k| && k[i].Some? && k[j].Some? ==> Identity(n, k[i].value) != Identity(n, k[j].value)
  }

  /** The packages the table knows. */
  ghost function Known(n: Names, k: Packages): set<(Key, (nat, seq<int>, seq<int>))>
    requires AllNamed(n, k)
  {
    set i | 0 <= i < |k| && k[i].Some? :: Identity(n, k[i].value)
  }

  ghost predicate PackagesOk(n: Names, k: Packages) {
    |k| == PACKAGE_HASH_PRIME + 1 && k[PACKAGE_HASH_PRIME].None? && AllNamed(n, k) &&
    Chained(PackageKeys(n, k), PACKAGE_HASH_PRIME) && NoTwins(n, k)
  }

  ghost predicate AllPlaced(k: Packages, t: Statuses) {
    forall i :: 0 <= i < |t| && t[i].Some? ==> t[i].value.package < |k| && k[t[i].value.package].Some?
  }

  /** The string each slot of the status table is hashed by. */
  ghost function StatusKeys(n: Names, k: Packages, t: Statuses): (r: seq<Option<Key>>)
    requires AllNamed(n, k) && AllPlaced(k, t)
    ensures |r| == |t|
  {
    seq(|t|, i requires 0 <= i < |t| => if t[i].Some? then Some(NameOf(n, k[t[i].value.package].value)) else None)
  }

  ghost predicate StatusesOk(n: Names, k: Packages, t: Statuses)
    requires AllNamed(n, k)
  {
    |t| == STATUS_HASH_PRIME + 1 && t[STATUS_HASH_PRIME].None? && AllPlaced(k, t) &&
    NameTable(StatusKeys(n, k, t), STATUS_HASH_PRIME)
  }

  // ---- names only grow

  lemma GrowsNames(n: Names, n': Names, k: Packages)
    requires AllNamed(n, k) && Grows(n, n')
    ensures AllNamed(n', k) && PackageKeys(n', k) == PackageKeys(n, k)
  {
  }

  lemma GrowsIdentity(n: Names, n': Names, node: Node)
    requires Named(n, node) && Grows(n, n')
    ensures Named(n', node) && Identity(n', node) == Identity(n, node)
  {
    hide DebOrder.Canonical;
  }

  lemma GrowsPackages(n: Names, n': Names, k: Packages)
    requires PackagesOk(n, k) && Grows(n, n')
    ensures PackagesOk(n', k) && Known(n', k) == Known(n, k)
  {
    hide Chained, Identity;
    GrowsNames(n, n', k);
    forall i | 0 <= i < |k| && k[i].Some? ensures Identity(n', k[i].value) == Identity(n, k[i].value) {
      GrowsIdentity(n, n', k[i].value);
    }
  }

  lemma GrowsStatuses(n: Names, n': Names, k: Packages, t: Statuses)
    requires AllNamed(n, k) && StatusesOk(n, k, t) && Grows(n, n') && AllNamed(n', k)
    ensures StatusesOk(n', k, t) && StatusKeys(n', k, t) == StatusKeys(n, k, t)
  {
    hide NameTable;
    assert StatusKeys(n', k, t) == StatusKeys(n, k, t);
  }

  lemma GrowsAll(n: Names, n': Names, k: Packages, t: Statuses)
    requires PackagesOk(n, k) && StatusesOk(n, k, t) && Grows(n, n')
    ensures PackagesOk(n', k) && StatusesOk(n', k, t) && Known(n', k) == Known(n, k)
  {
    hide Chained, NameTable, Grows;
    GrowsPackages(n, n', k);
    GrowsStatuses(n, n', k, t);
  }

  // ---- storing a package

  /** The slots a search for a package may end at because of what they hold. */
  ghost function Wanted(n: Names, k: Packages, name: nat, version: nat, operator: nat): set<nat>
    requires AllNamed(n, k) && (operator != VER_ANY ==> Stored(n, version))
  {
    set i: nat | i < |k| && k[i].Some? && Matches(n, k[i].value, name, version, operator)
  }

  lemma EqualIsIdentity(n: Names, a: Node, b: Node)
    requires Named(n, a) && Named(n, b)
    ensures Matches(n, a, b.name, b.version, VER_EQUAL) <==> a.name == b.name && Identity(n, a) == Identity(n, b)
  {
    hide DebOrder.Canonical, PolicyCompare;
    OperatorsAgree(n[a.version].value, n[b.version].value);
  }

  /** A node goes where the search for its name and version ends. */
  ghost predicate Fitting(n: Names, k: Packages, node: Node, r: nat)
    requires AllNamed(n, k) && Named(n, node)
  {
    PACKAGE_HASH_PRIME <= |k| &&
    Lands(PackageKeys(n, k), PACKAGE_HASH_PRIME, NameOf(n, node), Wanted(n, k, node.name, node.version, VER_EQUAL), r)
  }

  lemma SameNameSameSlot(n: Names, a: Node, b: Node)
    requires NamesOk(n) && Named(n, a) && Named(n, b) && NameOf(n, a) == NameOf(n, b)
    ensures a.name == b.name
  {
  }

  /** At the slot a node goes to there is nothing or the same package; anywhere else there is another one. */
  lemma FittingIsNew(n: Names, k: Packages, node: Node, r: nat, i: nat)
    requires NamesOk(n) && PackagesOk(n, k) && Named(n, node) && Fitting(n, k, node, r) && i < |k| && k[i].Some?
    ensures Identity(n, k[i].value) == Identity(n, node) <==> i == r
  {
    hide Chained, Matches, DebOrder.Canonical, NameTable;
    EqualIsIdentity(n, k[i].value, node);
    if k[r].Some? {
      EqualIsIdentity(n, k[r].value, node);
    } else if Identity(n, k[i].value) == Identity(n, node) {
      SameNameSameSlot(n, k[i].value, node);
      FreeMeansAbsent(PackageKeys(n, k), PACKAGE_HASH_PRIME, NameOf(n, node),
                      Wanted(n, k, node.name, node.version, VER_EQUAL), r, i);
    }
  }

  lemma StoreNamed(n: Names, k: Packages, node: Node, r: nat)
    requires AllNamed(n, k) && Named(n, node) && r < |k| && (k[r].Some? ==> NameOf(n, k[r].value) == NameOf(n, node))
    ensures AllNamed(n, k[r := Some(node)])
    ensures PackageKeys(n, k[r := Some(node)]) == PackageKeys(n, k)[r := Some(NameOf(n, node))]
  {
  }

  lemma StorePackage(n: Names, k: Packages, node: Node, r: nat)
    requires NamesOk(n) && PackagesOk(n, k) && Named(n, node) && Fitting(n, k, node, r)
    ensures PackagesOk(n, k[r := Some(node)])
    ensures Known(n, k[r := Some(node)]) == Known(n, k) + {Identity(n, node)}
    ensures k[r].Some? ==> NameOf(n, k[r].value) == NameOf(n, node)
  {
    hide Chained, Matches, NameTable, NamesOk, DebOrder.Canonical;
    forall i: nat | i < |k| && k[i].Some? ensures Identity(n, k[i].value) == Identity(n, node) <==> i == r {
      FittingIsNew(n, k, node, r, i);
    }
    StoreNamed(n, k, node, r);
    InsertChained(PackageKeys(n, k), PACKAGE_HASH_PRIME, NameOf(n, node),
                  Wanted(n, k, node.name, node.version, VER_EQUAL), r);
    var k' := k[r := Some(node)];
    hide Identity, NameOf, Wanted;
    forall i, j | 0 <= i < j < |k'| && k'[i].Some? &&
      k'[j].Some? ensures Identity(n, k'[i].value) != Identity(n, k'[j].value) {}
    forall x | x in Known(n, k) + {Identity(n, node)} ensures x in Known(n, k') {
      if x == Identity(n, node) { assert k'[r] == Some(node); }
      else {
        var i :| 0 <= i < |k| && k[i].Some? && Identity(n, k[i].value) == x;
        assert k'[i] == k[i];
      }
    }
  }

  lemma StoreKeepsStatuses(n: Names, k: Packages, t: Statuses, node: Node, r: nat)
    requires AllNamed(n, k) && StatusesOk(n, k, t) && Named(n, node) && r < |k|
    requires k[r].Some? ==> NameOf(n, k[r].value) == NameOf(n, node)
    ensures AllNamed(n, k[r := Some(node)]) && StatusesOk(n, k[r := Some(node)], t)
    ensures StatusKeys(n, k[r := Some(node)], t) == StatusKeys(n, k, t)
  {
    hide NameTable, Named;
    StoreNamed(n, k, node, r);
    assert StatusKeys(n, k[r := Some(node)], t) == StatusKeys(n, k, t);
  }

  // ---- storing a status

  lemma StoreStatus(n: Names, k: Packages, t: Statuses, node: StatusNode)
    requires AllNamed(n, k) && StatusesOk(n, k, t) && node.package < |k| && k[node.package].Some?
    requires Room(StatusKeys(n, k, t), STATUS_HASH_PRIME, NameOf(n, k[node.package].value))
    ensures var key := NameOf(n, k[node.package].value);
      var r := Find(StatusKeys(n, k, t), STATUS_HASH_PRIME, key);
      r < STATUS_HASH_PRIME && StatusesOk(n, k, t[r := Some(node)]) &&
      StatusKeys(n, k, t[r := Some(node)]) == Intern(StatusKeys(n, k, t), STATUS_HASH_PRIME, key)
  {
    hide NameTable, Find, Named, NameOf;
    StatusSizeIsPrime();
    var key := NameOf(n, k[node.package].value);
    var r := Find(StatusKeys(n, k, t), STATUS_HASH_PRIME, key);
    InternKeeps(StatusKeys(n, k, t), STATUS_HASH_PRIME, key);
    assert StatusKeys(n, k, t[r := Some(node)]) == StatusKeys(n, k, t)[r := Some(key)];
  }

  // ---- the searches

  class Globals {
    const names: array<Option<Key>>
    const packages: array<Option<Node>>
    const statuses: array<Option<StatusNode>>

    ghost predicate Valid()
      reads names, packages, statuses
    {
      NamesOk(names[..]) && PackagesOk(names[..], packages[..]) && StatusesOk(names[..], packages[..], statuses[..])
    }

    /** All slots empty. */
    constructor ()
      ensures Valid() && fresh(names) && fresh(packages) && fresh(statuses)
      ensures forall i :: 0 <= i < names.Length ==> names[i].None?
      ensures forall i :: 0 <= i < packages.Length ==> packages[i].None?
      ensures forall i :: 0 <= i < statuses.Length ==> statuses[i].None?
    {
      hide NamesOk, PackagesOk, StatusesOk;
      names := new Option<Key>[NAME_HASH_PRIME + 1](_ => None);
      packages := new Option<Node>[PACKAGE_HASH_PRIME + 1](_ => None);
      statuses := new Option<StatusNode>[STATUS_HASH_PRIME + 1](_ => None);
      new;
      EmptyTables(names[..], packages[..], statuses[..]);
    }

    /** Finds a string or stores it. */
    method SearchName(key: Key) returns (r: nat)
      requires Valid() && CString(key) && Room(names[..], NAME_HASH_PRIME, key)
      modifies names
      ensures Valid() && r == Find(old(names[..]), NAME_HASH_PRIME, key)
      ensures names[..] == Intern(old(names[..]), NAME_HASH_PRIME, key)
      ensures r < NAME_HASH_PRIME && names[r] == Some(key) && Grows(old(names[..]), names[..])
      ensures Known(names[..], packages[..]) == old(Known(names[..], packages[..]))
    {
      hide NameTable, PackagesOk, StatusesOk, Room, Slot, Hash;
      ghost var n := names[..];
      var p := NAME_HASH_PRIME;
      NameSizeIsPrime();
      var addr, dec := MakeHash(key, p);
      ghost var k: nat := 0;
      FindLands(n, p, key);
      ghost var s := RoomAt(n, p, key);
      Slot0(key, p);
      while names[addr] != None
        invariant addr == Probe(key, p, k) && names[..] == n && (addr, dec) == (addr, Hash(key, p).1)
        invariant StopsAfter(n, p, key, Holding(n, p, key), k) && FindFrom(n, p, key, k) == Find(n, p, key)
        decreases p - k
      {
        StopsInTime(n, p, key, Holding(n, p, key), k, s);
        if names[addr] == Some(key) { break; }
        SlotNext(key, p, k);
        addr := if addr < dec then addr + p - dec else addr - dec;
        k := k + 1;
      }
      StopsInTime(n, p, key, Holding(n, p, key), k, s);
      r := addr;
      InternKeeps(n, p, key);
      if names[addr] == None { names[addr] := Some(key); }
      assert names[..] == Intern(n, p, key);
      GrowsAll(n, names[..], packages[..], statuses[..]);
    }

    /** Finds a node with this name that meets the operator, or the slot such a node would go to. */
    method SearchPackage(name: nat, version: nat, operator: nat) returns (r: nat)
      requires Valid() && Stored(names[..], name) && (operator != VER_ANY ==> Stored(names[..], version))
      requires exists s: nat :: s < PACKAGE_HASH_PRIME && Ends(names[..], packages[..], s, name, version, operator)
      ensures r < PACKAGE_HASH_PRIME && Ends(names[..], packages[..], r, name, version, operator)
      ensures packages[r].None? ==> Wanted(names[..], packages[..], name, version, operator) == {}
      ensures Lands(PackageKeys(names[..], packages[..]), PACKAGE_HASH_PRIME, names[name].value,
              Wanted(names[..], packages[..], name, version, operator), r)
    {
      hide NamesOk, StatusesOk, Slot, Hash, PolicyCompare, Meets, Chained, NoTwins;
      ghost var n, kk := names[..], packages[..];
      ghost var s: nat :| s < PACKAGE_HASH_PRIME && Ends(n, kk, s, name, version, operator);
      ghost var keys, wanted := PackageKeys(n, kk), Wanted(n, kk, name, version, operator);
      var p, key := PACKAGE_HASH_PRIME, names[name].value;
      PackageSizeIsPrime();
      var addr, dec := MakeHash(key, p);
      ghost var k: nat := 0;
      Slot0(key, p);
      while packages[addr] != None
        invariant addr == Probe(key, p, k) && dec == Hash(key, p).1 && StopsAfter(keys, p, key, wanted, k)
        decreases p - k
      {
        StopsInTime(keys, p, key, wanted, k, s);
        var node := packages[addr].value;
        assert kk[addr] == Some(node);
        if node.name == name {
          if operator == VER_ANY { return addr; }
          var ok := TestVersion(names[node.version].value, names[version].value, operator);
          if ok { return addr; }
        }
        assert addr !in wanted;
        SlotNext(key, p, k);
        addr := if addr < dec then addr + p - dec else addr - dec;
        k := k + 1;
      }
      StopsInTime(keys, p, key, wanted, k, s);
      assert Lands(keys, p, key, wanted, addr);
      NothingWanted(n, kk, name, version, operator, addr);
      r := addr;
    }

    /** Finds the status of the package with this name, or the slot it would go to. */
    method SearchStatus(key: Key) returns (r: nat)
      requires Valid() && Room(StatusKeys(names[..], packages[..], statuses[..]), STATUS_HASH_PRIME, key)
      ensures r == Find(StatusKeys(names[..], packages[..], statuses[..]), STATUS_HASH_PRIME, key)
      ensures r < STATUS_HASH_PRIME
      ensures statuses[r].Some? ==> StatusKeys(names[..], packages[..], statuses[..])[r] == Some(key)
      ensures statuses[r].None? ==> Some(key) !in StatusKeys(names[..], packages[..], statuses[..])[..STATUS_HASH_PRIME]
    {
      hide NamesOk, NoTwins, Room, Slot, Hash, Chained, Distinct;
      ghost var keys := StatusKeys(names[..], packages[..], statuses[..]);
      var p := STATUS_HASH_PRIME;
      StatusSizeIsPrime();
      var addr, dec := MakeHash(key, p);
      ghost var k: nat := 0;
      FindLands(keys, p, key);
      ghost var s := RoomAt(keys, p, key);
      Slot0(key, p);
      while statuses[addr] != None
        invariant addr == Probe(key, p, k) && dec == Hash(key, p).1
        invariant StopsAfter(keys, p, key, Holding(keys, p, key), k) && FindFrom(keys, p, key, k) == Find(keys, p, key)
        decreases p - k
      {
        StopsInTime(keys, p, key, Holding(keys, p, key), k, s);
        var package := packages[statuses[addr].value.package].value;
        if names[package.name].value == key { break; }
        SlotNext(key, p, k);
        addr := if addr < dec then addr + p - dec else addr - dec;
        k := k + 1;
      }
      StopsInTime(keys, p, key, Holding(keys, p, key), k, s);
      r := addr;
      if statuses[r] == None { NotStored(keys, p, key, r); }
    }

    /** SearchName, when no more strings than slots are in play. */
    method InternName(key: Key, ghost all: set<Key>) returns (r: nat)
      requires Valid() && CString(key) && Strings(names[..], NAME_HASH_PRIME) <= all && key in all
      requires |all| <= NAME_HASH_PRIME
      modifies names
      ensures Valid() && r < NAME_HASH_PRIME && names[r] == Some(key) && Grows(old(names[..]), names[..])
      ensures Strings(names[..], NAME_HASH_PRIME) <= all
      ensures names[..] == Intern(old(names[..]), NAME_HASH_PRIME, key)
      ensures forall i :: 0 <= i < names.Length ==> names[i] == old(names[i]) || names[i] == Some(key)
      ensures Known(names[..], packages[..]) == old(Known(names[..], packages[..]))
      ensures StatusKeys(names[..], packages[..], statuses[..])
              == old(StatusKeys(names[..], packages[..], statuses[..]))
    {
      hide NoTwins, Chained, Find, DebOrder.Canonical;
      ghost var n := names[..];
      Enough(n, NAME_HASH_PRIME, key, all);
      r := SearchName(key);
      GrowsStatuses(n, names[..], packages[..], statuses[..]);
    }

    /** The end of fill_package_struct: the names are interned and the node is stored under its name and version.
        Without a version nothing is stored (-1). Without a name the node keeps name number 0: it goes under whatever
        string has that number, and if none has, the source reads through a null pointer (-2). */
    method FillPackage(name: Option<Key>, version: Option<Key>) returns (num: int)
      requires Valid() && (name.Some? ==> CString(name.value)) && (version.Some? ==> CString(version.value))
      requires |Strings(names[..], NAME_HASH_PRIME) + Asked(name, version)| <= NAME_HASH_PRIME
      requires Unversioned(version) || CanPlace(names[..], packages[..], name, version.value)
      modifies names, packages
      ensures Valid() && Grows(old(names[..]), names[..])
      ensures Strings(names[..], NAME_HASH_PRIME) <= old(Strings(names[..], NAME_HASH_PRIME)) + Asked(name, version)
      ensures names[..] == Interned(old(names[..]), name, version)
      ensures num == -1 <==> Unversioned(version)
      ensures num == -2 <==> Nameless(old(names[..]), name, version)
      ensures num < 0 ==> num >= -2 && packages[..] == old(packages[..])
      ensures num >= 0 ==> num < PACKAGE_HASH_PRIME && packages[num].Some?
      ensures num >= 0 ==> packages[..] == old(packages[..])[num := packages[num]]
      ensures num >= 0 ==>
              NameGiven(names[..], name).Some? &&
                NameOf(names[..], packages[num].value) == NameGiven(names[..], name).value
      ensures num >= 0 ==>
              names[packages[num].value.version] == version && Given(old(names[..]), names[..], name, version.value)
      ensures StatusKeys(names[..], packages[..], statuses[..])
              == old(StatusKeys(names[..], packages[..], statuses[..]))
      ensures Known(names[..], packages[..]) == old(Known(names[..], packages[..]))
        + if num < 0 then {} else {(NameGiven(names[..], name).value, DebOrder.Canonical(version.value))}
    {
      hide NoTwins, Chained, Find, Intern, DebOrder.Canonical, Lands, Strings, Known, StatusKeys, Wanted, PackageKeys,
           CanPlace, Placeable,
           NameTable, CString, Asked, AllPlaced, Interned;
      ghost var all := Strings(names[..], NAME_HASH_PRIME) + Asked(name, version);
      var node, at := InternFields(name, version, all);
      ghost var n := names[..];
      UnknownAsked(name, version);
      var unknown := InternName(UNKNOWN, all);
      InternAgain(n, names[..], at, UNKNOWN);
      SameNumber(names[..], node.version, unknown);
      if node.version == unknown { return -1; }
      if names[node.name] == None { return -2; }
      PlaceGiven(old(names[..]), names[..], packages[..], name, version.value);
      num := StoreNode(node);
    }

    /** Stores a node at the slot of the package it is, or at the first free one. */
    method StoreNode(node: Node) returns (num: int)
      requires Valid() && Named(names[..], node)
      requires Placeable(names[..], packages[..], NameOf(names[..], node), names[node.version].value)
      modifies packages
      ensures Valid() && 0 <= num < PACKAGE_HASH_PRIME && packages[..] == old(packages[..])[num := Some(node)]
      ensures StatusKeys(names[..], packages[..], statuses[..])
              == old(StatusKeys(names[..], packages[..], statuses[..]))
      ensures Known(names[..], packages[..]) == old(Known(names[..], packages[..])) + {Identity(names[..], node)}
    {
      hide NoTwins, Chained, Lands, Known, StatusKeys, Wanted, PackageKeys, Placeable, Identity;
      ghost var n, k, t := names[..], packages[..], statuses[..];
      var _ := PlaceableEnds(n, k, node);
      num := SearchPackage(node.name, node.version, VER_EQUAL);
      StorePackage(n, k, node, num);
      StoreKeepsStatuses(n, k, t, node, num);
      packages[num] := Some(node);
      assert packages[..] == k[num := Some(node)];
    }

    /** Interns the fields of an entry; a field that is missing leaves name number 0, or the version "unknown". */
    method InternFields(name: Option<Key>, version: Option<Key>, ghost all: set<Key>)
      returns (node: Node, ghost at: nat)
      requires Valid() && (name.Some? ==> CString(name.value)) && (version.Some? ==> CString(version.value))
      requires Strings(names[..], NAME_HASH_PRIME) + Asked(name, version) <= all && |all| <= NAME_HASH_PRIME
      modifies names
      ensures Valid() && Grows(old(names[..]), names[..]) && Strings(names[..], NAME_HASH_PRIME) <= all
      ensures names[..] == Interned(old(names[..]), name, version)
      ensures Stored(names[..], at) && names[at] == Some(UNKNOWN)
      ensures name.Some? ==> Stored(names[..], node.name) && names[node.name] == name
      ensures name.None? ==> node.name == 0
      ensures Stored(names[..], node.version) && names[node.version] == if version.Some? then version else Some(UNKNOWN)
      ensures name.None? ==> names[0] == old(names[0]) || names[0] == Some(UNKNOWN) || names[0] == version
      ensures Known(names[..], packages[..]) == old(Known(names[..], packages[..]))
      ensures StatusKeys(names[..], packages[..], statuses[..])
              == old(StatusKeys(names[..], packages[..], statuses[..]))
    {
      hide NoTwins, Chained, Find, Intern, DebOrder.Canonical, Lands, Strings, Known, StatusKeys, Wanted, PackageKeys;
      var i := InternName(UNKNOWN, all);
      node, at := Node(0, i), i;
      if name.Some? {
        i := InternName(name.value, all);
        node := node.(name := i);
      }
      if version.Some? {
        i := InternName(version.value, all);
        node := node.(version := i);
      }
    }

    /** One entry of the status file: its package is stored, and its status under the name of the package. Without a
        Status line the new node's status is whatever the allocator left there (`garbage`). */
    method IndexEntry(name: Option<Key>, version: Option<Key>, status: Option<Key>, garbage: nat)
      returns (num: int, slot: nat)
      requires Valid() && (name.Some? ==> CString(name.value)) && (version.Some? ==> CString(version.value))
      requires status.Some? ==> CString(status.value)
      requires |Strings(names[..], NAME_HASH_PRIME) + Asked(name, version) + Line(status)| <= NAME_HASH_PRIME
      requires Unversioned(version) || CanPlace(names[..], packages[..], name, version.value)
      requires Unversioned(version) || CanList(names[..], packages[..], statuses[..], name, version.value)
      modifies names, packages, statuses
      ensures Valid() && Grows(old(names[..]), names[..])
      ensures num == -1 <==> Unversioned(version)
      ensures num == -2 <==> Nameless(old(names[..]), name, version)
      ensures num < 0 ==> num >= -2 && packages[..] == old(packages[..]) && statuses[..] == old(statuses[..])
      ensures num >= 0 ==> NameGiven(names[..], name).Some?
      ensures Known(names[..], packages[..]) == old(Known(names[..], packages[..]))
        + if num < 0 then {} else {(NameGiven(names[..], name).value, DebOrder.Canonical(version.value))}
      ensures num >= 0 ==> slot < STATUS_HASH_PRIME && statuses[slot].Some? && statuses[slot].value.package == num
      ensures num >= 0 ==> StatusKeys(names[..], packages[..], statuses[..])[slot] == NameGiven(names[..], name)
      ensures num >= 0 && status.Some? ==>
              Stored(names[..], statuses[slot].value.status) && names[statuses[slot].value.status] == status
      ensures num >= 0 && status.None? ==> statuses[slot].value.status == garbage
      ensures num >= 0 ==> statuses[..] == old(statuses[..])[slot := statuses[slot]]
      ensures num >= 0 ==>
              slot == Find(old(StatusKeys(names[..], packages[..], statuses[..])), STATUS_HASH_PRIME,
                NameGiven(names[..], name).value)
    {
      hide NoTwins, Chained, Distinct, Find, DebOrder.Canonical, Strings, Known, StatusKeys, Room, CanPlace, CanList,
           NameTable, Asked, Candidates,
           AllPlaced, CString, Given, PackageKeys, Identity, Line, Nameless, Interned;
      ghost var n0 := names[..];
      ghost var all := Strings(names[..], NAME_HASH_PRIME) + Asked(name, version) + Line(status);
      MoreStrings(Strings(names[..], NAME_HASH_PRIME) + Asked(name, version), all);
      num := FillPackage(name, version);
      slot := 0;
      if num < 0 { return; }
      ghost var n1 := names[..];
      var line := InternLine(status, garbage, all);
      GivenGrows(n1, names[..], name);
      ListGiven(n0, n1, old(packages[..]), statuses[..], name, version.value);
      slot := ListPackage(StatusNode(num, line), names[packages[num].value.name].value);
    }

    /** The number of the Status line, if there is one. */
    method InternLine(status: Option<Key>, garbage: nat, ghost all: set<Key>) returns (line: nat)
      requires Valid() && (status.Some? ==> CString(status.value))
      requires Strings(names[..], NAME_HASH_PRIME) <= all && Line(status) <= all && |all| <= NAME_HASH_PRIME
      modifies names
      ensures Valid() && Grows(old(names[..]), names[..])
      ensures if status.None? then line == garbage else Stored(names[..], line) && names[line] == status
      ensures Known(names[..], packages[..]) == old(Known(names[..], packages[..]))
      ensures StatusKeys(names[..], packages[..], statuses[..])
              == old(StatusKeys(names[..], packages[..], statuses[..]))
    {
      hide NoTwins, Chained, Find, DebOrder.Canonical, Strings, Known, StatusKeys, NameTable;
      line := garbage;
      if status.Some? { line := InternName(status.value, all); }
    }

    /** Stores a status at the slot of its package's name, or at the first free one. */
    method ListPackage(node: StatusNode, key: Key) returns (slot: nat)
      requires Valid() && node.package < PACKAGE_HASH_PRIME && packages[node.package].Some?
      requires key == NameOf(names[..], packages[node.package].value)
      requires Room(StatusKeys(names[..], packages[..], statuses[..]), STATUS_HASH_PRIME, key)
      modifies statuses
      ensures Valid()
      ensures slot == Find(old(StatusKeys(names[..], packages[..], statuses[..])), STATUS_HASH_PRIME,
              key) < STATUS_HASH_PRIME
      ensures statuses[..] == old(statuses[..])[slot := Some(node)]
      ensures StatusKeys(names[..], packages[..], statuses[..])[slot] == Some(key)
    {
      hide NoTwins, Chained, Distinct, Find, Room, NameTable, CString;
      slot := SearchStatus(key);
      ghost var t := statuses[..];
      StoreStatus(names[..], packages[..], t, node);
      statuses[slot] := Some(node);
      assert statuses[..] == t[slot := Some(node)];
    }
  }

  lemma EmptyTables(n: Names, k: Packages, t: Statuses)
    requires |n| == NAME_HASH_PRIME + 1 && |k| == PACKAGE_HASH_PRIME + 1 && |t| == STATUS_HASH_PRIME + 1
    requires forall i :: 0 <= i < |n| ==> n[i].None?
    requires forall i :: 0 <= i < |k| ==> k[i].None?
    requires forall i :: 0 <= i < |t| ==> t[i].None?
    ensures NamesOk(n) && PackagesOk(n, k) && StatusesOk(n, k, t)
  {
    assert AllNamed(n, k) && AllPlaced(k, t);
  }

  /** The names once the fields of an entry are interned. */
  ghost function Interned(n: Names, name: Option<Key>, version: Option<Key>): (r: Names)
    requires |n| > NAME_HASH_PRIME
    ensures |r| == |n|
  {
    var a := Intern(n, NAME_HASH_PRIME, UNKNOWN);
    var b := if name.Some? then Intern(a, NAME_HASH_PRIME, name.value) else a;
    if version.Some? then Intern(b, NAME_HASH_PRIME, version.value) else b
  }

  /** The entry has a version and no name, and no string will have name number 0: the name is read through a null
      pointer. */
  ghost predicate Nameless(n: Names, name: Option<Key>, version: Option<Key>)
    requires |n| > NAME_HASH_PRIME
  {
    !Unversioned(version) && name.None? && Interned(n, name, version)[0].None?
  }

  /** Asking again for a string that is stored changes nothing. */
  lemma InternAgain(n: Names, n': Names, at: nat, key: Key)
    requires NamesOk(n) && NamesOk(n') && n' == Intern(n, NAME_HASH_PRIME, key) && Grows(n, n')
    requires Stored(n, at) && n[at] == Some(key)
    ensures n' == n
  {
    hide Find, Chained, CString;
    var r := Find(n, NAME_HASH_PRIME, key);
    if r < NAME_HASH_PRIME { SameNumber(n', r, at); }
  }

  ghost predicate Unversioned(version: Option<Key>) { version.None? || version == Some(UNKNOWN) }

  /** The string an entry goes under: its name, or without one what has name number 0. */
  ghost function NameGiven(n: Names, name: Option<Key>): Option<Key>
    requires |n| > 0
  {
    if name.Some? then name else n[0]
  }

  /** The strings an entry may go under once its fields are interned. */
  ghost function Candidates(n: Names, name: Option<Key>, version: Key): set<Key>
    requires |n| > 0
  {
    var given := NameGiven(n, name);
    if given.Some? then {given.value} else {UNKNOWN, version}
  }

  ghost predicate CanPlace(n: Names, k: Packages, name: Option<Key>, version: Key)
    requires |n| > 0 && AllNamed(n, k)
  {
    forall key :: key in Candidates(n, name, version) ==> Placeable(n, k, key, version)
  }

  ghost predicate CanList(n: Names, k: Packages, t: Statuses, name: Option<Key>, version: Key)
    requires |n| > 0 && AllNamed(n, k) && AllPlaced(k, t)
  {
    forall key :: key in Candidates(n, name, version) ==> Room(StatusKeys(n, k, t), STATUS_HASH_PRIME, key)
  }

  /** What name number 0 is after interning the fields. */
  ghost predicate Given(n: Names, n': Names, name: Option<Key>, version: Key)
    requires 0 < |n| == |n'|
  {
    Grows(n, n') && NameGiven(n', name).Some? &&
      (name.None? ==> n'[0] == n[0] || n'[0] == Some(UNKNOWN) || n'[0] == Some(version))
  }

  /** There is a free slot, or the package is there already. */
  ghost predicate Placeable(n: Names, k: Packages, name: Key, version: Key)
    requires AllNamed(n, k)
  {
    exists s :: 0 <= s < |k| && s != PACKAGE_HASH_PRIME &&
      (k[s].None? || Identity(n, k[s].value) == (name, DebOrder.Canonical(version)))
  }

  lemma GivenCandidate(n: Names, n': Names, name: Option<Key>, version: Key)
    requires 0 < |n| == |n'| && Given(n, n', name, version)
    ensures NameGiven(n', name).value in Candidates(n, name, version)
  {
  }

  lemma GivenGrows(n: Names, n': Names, name: Option<Key>)
    requires 0 < |n| && Grows(n, n') && NameGiven(n, name).Some?
    ensures NameGiven(n', name) == NameGiven(n, name)
  {
  }

  lemma PlaceGiven(n: Names, n': Names, k: Packages, name: Option<Key>, version: Key)
    requires 0 < |n| == |n'| && AllNamed(n, k) && CanPlace(n, k, name, version) && Given(n, n', name, version)
    ensures AllNamed(n', k) && Placeable(n', k, NameGiven(n', name).value, version)
  {
    hide Placeable, Candidates, NameGiven, Named;
    GivenCandidate(n, n', name, version);
    PlaceableGrows(n, n', k, NameGiven(n', name).value, version);
  }

  lemma ListGiven(n: Names, n': Names, k: Packages, t: Statuses, name: Option<Key>, version: Key)
    requires 0 < |n| == |n'| && AllNamed(n, k) && AllPlaced(k, t) && CanList(n, k, t, name, version)
    requires Given(n, n', name, version)
    ensures Room(StatusKeys(n, k, t), STATUS_HASH_PRIME, NameGiven(n', name).value)
  {
    hide Room, Candidates, NameGiven, StatusKeys;
    GivenCandidate(n, n', name, version);
  }

  lemma PlaceableGrows(n: Names, n': Names, k: Packages, name: Key, version: Key)
    requires AllNamed(n, k) && Placeable(n, k, name, version) && Grows(n, n')
    ensures AllNamed(n', k) && Placeable(n', k, name, version)
  {
    hide Identity;
    GrowsNames(n, n', k);
    var s :| 0 <= s < |k| && s != PACKAGE_HASH_PRIME &&
      (k[s].None? || Identity(n, k[s].value) == (name, DebOrder.Canonical(version)));
    if k[s].Some? { GrowsIdentity(n, n', k[s].value); }
  }

  lemma PlaceableEnds(n: Names, k: Packages, node: Node) returns (s: nat)
    requires NamesOk(n) && PackagesOk(n, k) && Named(n, node) && Placeable(n, k, NameOf(n, node), n[node.version].value)
    ensures s < PACKAGE_HASH_PRIME && Ends(n, k, s, node.name, node.version, VER_EQUAL)
  {
    hide NameTable, Chained, DebOrder.Canonical, Meets;
    s :| 0 <= s < |k| && s != PACKAGE_HASH_PRIME &&
      (k[s].None? || Identity(n, k[s].value) == (NameOf(n, node), DebOrder.Canonical(n[node.version].value)));
    if k[s].Some? {
      assert Identity(n, k[s].value).0 == Identity(n, node).0;
      SameNameSameSlot(n, k[s].value, node);
      EqualIsIdentity(n, k[s].value, node);
    }
  }

  /** The strings a call may add. */
  ghost function Asked(name: Option<Key>, version: Option<Key>): set<Key> {
    {UNKNOWN} + Line(name) + Line(version)
  }

  lemma SameNumber(n: Names, i: nat, j: nat)
    requires NamesOk(n) && Stored(n, i) && Stored(n, j)
    ensures i == j <==> n[i] == n[j]
  {
    hide Chained, CString;
  }

  lemma UnknownAsked(name: Option<Key>, version: Option<Key>)
    ensures CString(UNKNOWN) && UNKNOWN in Asked(name, version)
  {
  }

  ghost function Line(field: Option<Key>): set<Key> { if field.Some? then {field.value} else {} }

  lemma NotStored(keys: seq<Option<Key>>, p: nat, key: Key, r: nat)
    requires 2 <= p <= |keys| && Chained(keys, p) && r < p && keys[r].None?
    requires Lands(keys, p, key, Holding(keys, p, key), r)
    ensures Some(key) !in keys[..p]
  {
    hide Chained, Lands;
    forall i: nat | i < p && keys[i] == Some(key) ensures false {
      FreeMeansAbsent(keys, p, key, Holding(keys, p, key), r, i);
    }
  }

  /** A search for a package ends at this slot. */
  ghost predicate Ends(n: Names, k: Packages, s: nat, name: nat, version: nat, operator: nat)
    requires AllNamed(n, k) && (operator != VER_ANY ==> Stored(n, version))
  {
    s < |k| && (k[s].None? || Matches(n, k[s].value, name, version, operator))
  }

  lemma NothingWanted(n: Names, k: Packages, name: nat, version: nat, operator: nat, r: nat)
    requires PackagesOk(n, k) && Stored(n, name) && (operator != VER_ANY ==> Stored(n, version))
    requires r < PACKAGE_HASH_PRIME && k[r].None?
    requires Lands(PackageKeys(n, k), PACKAGE_HASH_PRIME, n[name].value, Wanted(n, k, name, version, operator), r)
    ensures Wanted(n, k, name, version, operator) == {}
  {
    hide Chained, Meets, NoTwins, Lands;
    var wanted := Wanted(n, k, name, version, operator);
    forall i: nat | i in wanted ensures false {
      FreeMeansAbsent(PackageKeys(n, k), PACKAGE_HASH_PRIME, n[name].value, wanted, r, i);
    }
  }

  lemma RoomAt(n: Names, p: nat, key: Key) returns (s: nat)
    requires Room(n, p, key)
    ensures s < p <= |n| && (n[s].None? || n[s] == Some(key))
  {
    s :| 0 <= s < p && (n[s].None? || n[s] == Some(key));
  }

  lemma Slot0(key: Key, p: nat)
    requires p >= 2
    ensures Probe(key, p, 0) == Hash(key, p).0
  {
  }

  lemma SlotNext(key: Key, p: nat, k: nat)
    requires p >= 2
    ensures var a, dec := Probe(key, p, k), Hash(key, p).1;
            Probe(key, p, k + 1) == if a < dec then a + p - dec else a - dec
  {
    hide Hash;
  }

  // ---- an entry without a name

  /** The string "1". */
  const ONE: Key := [49]

  lemma FirstShifts(v: nat)
    ensures Shl(v, 0) == v && Shl(v, 1) == 2 * v && Shl(v, 2) == 4 * v && Shl(v, 3) == 8 * v
  {
    assert Shl(v, 1) == 2 * Shl(v, 0) && Shl(v, 2) == 2 * Shl(v, 1);
  }

  lemma FourMore(v: nat, k: nat)
    ensures Shl(v, k + 4) == 16 * Shl(v, k)
  {
    assert Shl(v, k + 4) == 2 * Shl(v, k + 3) && Shl(v, k + 2) == 2 * Shl(v, k + 1);
  }

  /** One more character. */
  lemma HashStep(key: Key, i: nat, v: nat, k: nat)
    requires 1 <= i < |key| && v == key[i] as int + key[i - 1] as int && k == key[i] as int * i % 24
    ensures HashNum(key, i + 1) == (HashNum(key, i) + Shl(v, k)) % WORD
  {
    hide Shl;
    assert Mixed(key[i - 1], key[i], i) == Shl(v, k);
  }

  lemma Unknown1()
    ensures HashNum(UNKNOWN, 2) == 3719285
  {
    assert HashNum(UNKNOWN, 1) == 117;
    hide HashNum, Shl;
    FirstShifts(227);
    FourMore(227, 2);
    FourMore(227, 6);
    FourMore(227, 10);
    HashStep(UNKNOWN, 1, 227, 14);
  }

  lemma Unknown2()
    ensures HashNum(UNKNOWN, 3) == 913883253
  {
    Unknown1();
    hide HashNum, Shl;
    FirstShifts(217);
    FourMore(217, 2);
    FourMore(217, 6);
    FourMore(217, 10);
    FourMore(217, 14);
    FourMore(217, 18);
    HashStep(UNKNOWN, 2, 217, 22);
  }

  lemma Unknown3()
    ensures HashNum(UNKNOWN, 4) == 970768501
  {
    Unknown2();
    hide HashNum, Shl;
    FirstShifts(217);
    FourMore(217, 2);
    FourMore(217, 6);
    FourMore(217, 10);
    FourMore(217, 14);
    HashStep(UNKNOWN, 3, 217, 18);
  }

  lemma Unknown4()
    ensures HashNum(UNKNOWN, 5) == 971673717
  {
    Unknown3();
    hide HashNum, Shl;
    FirstShifts(221);
    FourMore(221, 0);
    FourMore(221, 4);
    FourMore(221, 8);
    HashStep(UNKNOWN, 4, 221, 12);
  }

  lemma Unknown5()
    ensures HashNum(UNKNOWN, 6) == 1092259957
  {
    Unknown4();
    hide HashNum, Shl;
    FirstShifts(230);
    FourMore(230, 3);
    FourMore(230, 7);
    FourMore(230, 11);
    FourMore(230, 15);
    HashStep(UNKNOWN, 5, 230, 19);
  }

  lemma Unknown6()
    ensures HashNum(UNKNOWN, 7) == 1093197941
  {
    Unknown5();
    hide HashNum, Shl;
    FirstShifts(229);
    FourMore(229, 0);
    FourMore(229, 4);
    FourMore(229, 8);
    HashStep(UNKNOWN, 6, 229, 12);
  }

  /** "unknown" is looked for at slot 11906 first. */
  lemma UnknownHash()
    ensures Hash(UNKNOWN, NAME_HASH_PRIME).0 == 11906
  {
    hide HashNum;
    Unknown6();
  }

  /** In empty tables neither "unknown" nor the version "1" goes to slot 0, so an entry without a name has none. */
  lemma NamelessAtFirst(n: Names)
    requires |n| > NAME_HASH_PRIME && forall i :: 0 <= i < |n| ==> n[i].None?
    ensures Nameless(n, None, Some(ONE))
  {
    hide HashNum;
    UnknownHash();
    assert Find(n, NAME_HASH_PRIME, UNKNOWN) == 11906;
    var a := Intern(n, NAME_HASH_PRIME, UNKNOWN);
    OneHash();
    assert Find(a, NAME_HASH_PRIME, ONE) == 49;
  }

  lemma OneHash()
    ensures Hash(ONE, NAME_HASH_PRIME).0 == 49
  {
  }

  /** So the first entry of a status file that gives only the version "1" is read through a null pointer. */
  method NamelessEntry() returns (num: int)
    ensures num == -2
  {
    var g := new Globals();
    NamelessAtFirst(g.names[..]);
    FirstEntryFits(g.names[..], g.packages[..]);
    num := g.FillPackage(None, Some(ONE));
  }

  lemma FirstEntryFits(n: Names, k: Packages)
    requires |n| == NAME_HASH_PRIME + 1 && |k| == PACKAGE_HASH_PRIME + 1
    requires (forall i :: 0 <= i < |n| ==> n[i].None?) && forall i :: 0 <= i < |k| ==> k[i].None?
    ensures CString(ONE) && |Strings(n, NAME_HASH_PRIME) + Asked(None, Some(ONE))| <= NAME_HASH_PRIME
    ensures AllNamed(n, k) && CanPlace(n, k, None, ONE)
  {
    assert Strings(n, NAME_HASH_PRIME) == {};
    assert Strings(n, NAME_HASH_PRIME) + Asked(None, Some(ONE)) == {UNKNOWN, ONE};
    assert k[0].None?;
  }
}
