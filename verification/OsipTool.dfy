/** The order in which update_osip applies its options, and what a whole invocation does. */
module OsipTool {
  import opened Bits
  import opened OsipFormat
  import opened OsipCommands
  import opened OsipRuns
  import opened OsipDevice

  datatype Options = Options(
    backup: bool, restore: bool, update: bool, number: nat, given: Bytes, image: Option<Bytes>, invalidate: seq<int>)

  /** The commands of an invocation, in their order. */
  function Plan(o: Options): seq<Command> {
    (if o.backup then [BackupCommand] else []) + Plan2(o)
  }

  function Plan2(o: Options): seq<Command> {
    (if o.restore then [RestoreCommand] else []) + Plan3(o)
  }

  function Plan3(o: Options): seq<Command> {
    (if o.update && o.image.Some? then [FlashCommand(o.number, o.image.value)] else []) + Plan4(o)
  }

  function Plan4(o: Options): seq<Command> {
    (if o.update then [UpdateCommand(o.number, o.given)] else []) + Plan5(o)
  }

  /** Invalidating is refused without a backup in the same invocation. */
  function Plan5(o: Options): seq<Command> {
    if o.invalidate == [] then [] else if o.backup then [InvalidateCommand(o.invalidate)] else [RefuseCommand]
  }

  /** A backup comes before a restore, that before an image, that before an update, that before invalidating. */
  function Rank(c: Command): nat {
    match c
    case BackupCommand => 0
    case RestoreCommand => 1
    case FlashCommand(_, _) => 2
    case UpdateCommand(_, _) => 3
    case InvalidateCommand(_) => 4
    case RefuseCommand => 4
  }

  /** The options ask for the command. */
  predicate Asked(o: Options, c: Command) {
    match c
    case BackupCommand => o.backup
    case RestoreCommand => o.restore
    case FlashCommand(n, image) => o.update && o.image == Some(image) && n == o.number
    case UpdateCommand(n, given) => o.update && n == o.number && given == o.given
    case InvalidateCommand(values) => o.backup && values == o.invalidate != []
    case RefuseCommand => !o.backup && o.invalidate != []
  }

  /** The commands asked for of the rank `k` on, each rank before the next. */
  ghost predicate InOrder(o: Options, cs: seq<Command>, k: nat) {
    && (forall c :: c in cs <==> Asked(o, c) && Rank(c) >= k)
    && forall i, j :: 0 <= i < j < |cs| ==> Rank(cs[i]) < Rank(cs[j])
  }

  lemma OneMore(o: Options, one: seq<Command>, cs: seq<Command>, k: nat)
    requires InOrder(o, cs, k + 1) && |one| <= 1 && forall c :: c in one <==> Asked(o, c) && Rank(c) == k
    ensures InOrder(o, one + cs, k)
  {
    hide Asked, Rank;
    var all := one + cs;
    forall c ensures c in all <==> Asked(o, c) && Rank(c) >= k { assert c in all <==> c in one || c in cs; }
    forall i, j | 0 <= i < j < |all| ensures Rank(all[i]) < Rank(all[j]) {
      if i < |one| {
        assert all[i] in one && all[j] in cs;
      } else {
        assert Rank(cs[i - |one|]) < Rank(cs[j - |one|]);
      }
    }
  }

  /** Exactly the commands asked for, in the order of their ranks. */
  lemma PlanIsOrdered(o: Options)
    ensures InOrder(o, Plan(o), 0)
  {
    hide InOrder;
    OneMore(o, if o.update then [UpdateCommand(o.number, o.given)] else [], Plan5(o), 3) by { LastIsOrdered(o); }
    OneMore(o, if o.update && o.image.Some? then [FlashCommand(o.number, o.image.value)] else [], Plan4(o), 2);
    OneMore(o, if o.restore then [RestoreCommand] else [], Plan3(o), 1);
    OneMore(o, if o.backup then [BackupCommand] else [], Plan2(o), 0);
  }

  lemma LastIsOrdered(o: Options)
    ensures InOrder(o, Plan5(o), 4)
  {
  }

  // ---- up to the first failure

  /** Every command that is reached, before the first failure, names an entry and finds headers of a size that fits. */
  ghost predicate Reached(d: Disk, cs: seq<Command>)
    requires Healthy(d)
    decreases |cs|
  {
    cs == [] ||
    (Formed(cs[0]) &&
     (Succeeds(d, cs[0]) && cs[1..] != [] ==> Healthy(Do(d, cs[0])) && Reached(Do(d, cs[0]), cs[1..])))
  }

  /** The device after the commands up to the first that fails. */
  ghost function Until(d: Disk, cs: seq<Command>): Disk
    requires Healthy(d) && Reached(d, cs)
    decreases |cs|
  {
    if cs == [] then d
    else if Succeeds(d, cs[0]) && cs[1..] != [] then Until(Do(d, cs[0]), cs[1..])
    else Do(d, cs[0])
  }

  ghost predicate AllSucceed(d: Disk, cs: seq<Command>)
    requires Healthy(d) && Reached(d, cs)
    decreases |cs|
  {
    cs == [] || (Succeeds(d, cs[0]) && (cs[1..] != [] ==> AllSucceed(Do(d, cs[0]), cs[1..])))
  }

  lemma UntilStep(d: Disk, c: Command, cs: seq<Command>)
    requires Healthy(d) && Reached(d, [c] + cs)
    ensures Formed(c) && (Succeeds(d, c) && cs != [] ==> Healthy(Do(d, c)) && Reached(Do(d, c), cs))
    ensures Until(d, [c] + cs) == if Succeeds(d, c) && cs != [] then Until(Do(d, c), cs) else Do(d, c)
    ensures AllSucceed(d, [c] + cs) <==> Succeeds(d, c) && (cs != [] ==> AllSucceed(Do(d, c), cs))
  {
    hide Do, Succeeds, Formed, Healthy;
    assert ([c] + cs)[1..] == cs && ([c] + cs)[0] == c;
  }

  // ---- as a run of commands

  /** Every command that is reached is well formed and keeps images out of the first block. */
  ghost predicate Orderly(d: Disk, cs: seq<Command>)
    requires Fit(d)
    decreases |cs|
  {
    cs == [] ||
    (Formed(cs[0]) && Apart(d, cs[0]) &&
     (CommandKeeps(d, cs[0]); Succeeds(d, cs[0]) ==> Orderly(Do(d, cs[0]), cs[1..])))
  }

  /** The commands up to the first that fails. */
  ghost function Executed(d: Disk, cs: seq<Command>): (r: seq<Command>)
    requires Fit(d) && Orderly(d, cs)
    ensures r <= cs && Permitted(d, r)
    decreases |cs|
  {
    if cs == [] then []
    else
      CommandKeeps(d, cs[0]);
      var later := if Succeeds(d, cs[0]) then Executed(Do(d, cs[0]), cs[1..]) else [];
      assert ([cs[0]] + later)[1..] == later;
      [cs[0]] + later
  }

  /** With headers whose checksum covers itself an invocation is a run, to which all that holds of runs applies. */
  lemma {:induction false} UntilIsRun(d: Disk, cs: seq<Command>)
    requires Fit(d) && Orderly(d, cs)
    ensures Healthy(d) && Reached(d, cs) && Until(d, cs) == Run(d, Executed(d, cs))
    decreases |cs|
  {
    if cs != [] {
      hide Do, Succeeds, Formed, Apart, Healthy;
      FitIsHealthy(d);
      CommandKeeps(d, cs[0]);
      FitIsHealthy(Do(d, cs[0]));
      if Succeeds(d, cs[0]) { UntilIsRun(Do(d, cs[0]), cs[1..]); }
      var later := if Succeeds(d, cs[0]) then Executed(Do(d, cs[0]), cs[1..]) else [];
      assert ([cs[0]] + later)[1..] == later && ([cs[0]] + later)[0] == cs[0];
      assert Run(d, [cs[0]] + later) == Run(Do(d, cs[0]), later);
    } else {
      FitIsHealthy(d);
    }
  }

  lemma FitIsHealthy(d: Disk)
    requires Fit(d)
    ensures Healthy(d)
  {
  }

  /** One option: its command is carried out, or the invocation ends. */
  method Perform(device: array<byte>, c: Command, behind: Bytes) returns (code: int)
    requires device.Length >= BLOCK && Healthy(device[..]) && Formed(c)
    requires c.FlashCommand? ==> 0 < |c.image| < WORD && |c.image| + |behind| >= HEADER
    modifies device
    ensures device[..] == Do(old(device[..]), c) && (code == 0 <==> Succeeds(old(device[..]), c))
  {
    hide DoBackup, DoRestore, DoUpdate, DoInvalidate, DoFlash, FlashSucceeds;
    match c
    case BackupCommand =>
      var osip := ReadOsip(device, false);
      ghost var d: Disk := device[..];
      BackupHandle(device, osip);
      BackupIs(d);
      code := 0;
    case RestoreCommand => code := RestoreHandle(device);
    case FlashCommand(n, image) => code := WriteStitchImage(device, image, behind, n);
    case UpdateCommand(n, given) =>
      UpdateHandle(device, n, given);
      code := 0;
    case InvalidateCommand(values) => code := InvalidateHandle(device, values);
    case RefuseCommand => code := -1;
  }

  lemma BackupIs(d: Disk)
    ensures DoBackup(d) == PutBackup(d, Primary(d))
  {
  }

  /** An image file is not empty and its size is known in 32 bits; there is room for ten values to invalidate. */
  ghost predicate Wellformed(o: Options, behind: Bytes) {
    |o.invalidate| <= 10 && (o.image.Some? ==> 0 < |o.image.value| < WORD && |o.image.value| + |behind| >= HEADER)
  }

  /** The options in their order: each is one command of the plan, and the first failure ends the program. */
  method HandleCommands(device: array<byte>, o: Options, behind: Bytes) returns (code: int)
    requires device.Length >= BLOCK && Wellformed(o, behind) && Healthy(device[..]) && Reached(device[..], Plan(o))
    modifies device
    ensures device[..] == Until(old(device[..]), Plan(o))
    ensures code == 0 <==> AllSucceed(old(device[..]), Plan(o))
  {
    hide Do, Healthy, Succeeds, Reached, AllSucceed, Formed, Until;
    UntilEmpty(device[..]);
    code := 0;
    if o.backup {
      UntilStep(device[..], BackupCommand, Plan2(o));
      code := Perform(device, BackupCommand, behind);
      if code != 0 { return; }
    } else { assert Plan(o) == Plan2(o); }
    if o.restore {
      UntilStep(device[..], RestoreCommand, Plan3(o));
      code := Perform(device, RestoreCommand, behind);
      if code != 0 { return; }
    } else { assert Plan2(o) == Plan3(o); }
    if o.update && o.image.Some? {
      UntilStep(device[..], FlashCommand(o.number, o.image.value), Plan4(o));
      code := Perform(device, FlashCommand(o.number, o.image.value), behind);
      if code != 0 { return; }
    } else { assert Plan3(o) == Plan4(o); }
    if o.update {
      UntilStep(device[..], UpdateCommand(o.number, o.given), Plan5(o));
      code := Perform(device, UpdateCommand(o.number, o.given), behind);
      if code != 0 { return; }
    } else { assert Plan4(o) == Plan5(o); }
    if o.invalidate != [] {
      var c := if o.backup then InvalidateCommand(o.invalidate) else RefuseCommand;
      assert Plan5(o) == [c] + [];
      UntilStep(device[..], c, []);
      code := Perform(device, c, behind);
    }
  }

  lemma UntilEmpty(d: Disk)
    requires Healthy(d)
    ensures Reached(d, []) && Until(d, []) == d && AllSucceed(d, [])
  {
  }
}
