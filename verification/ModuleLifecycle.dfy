/** Loading and unloading the module: registrations made one by one, rolled back on failure. */
module ModuleLifecycle {
  /** What the module registers with the kernel; the last three are its sysfs groups. */
  datatype Resource = Chrdev | Class | Device | PlatformDevice | Timer | Policy | Thresholds | Status

  /** Which registrations the kernel refuses during one load. */
  datatype Faults = Faults(
    chrdev: bool, class_: bool, device: bool, platformDevice: bool,
    policy: bool, thresholds: bool, status: bool)

  /** The kernel's side: what is registered, oldest first; how many removals found nothing to remove;
      and how many removed something other than the newest registration. */
  datatype Registry = Registry(held: seq<Resource>, stray: nat, outOfOrder: nat)

  function Add(k: Registry, r: Resource): Registry { k.(held := k.held + [r]) }

  function Remove(k: Registry, r: Resource): (after: Registry)
    ensures forall held: seq<Resource> :: k.held == held + [r] ==> after == k.(held := held)
  {
    if r !in k.held then k.(stray := k.stray + 1)
    else
      var n := |k.held| - 1;
      if k.held[n] == r then k.(held := k.held[..n])
      else Registry(Without(k.held, r), k.stray, k.outOfOrder + 1)
  }

  function Without(held: seq<Resource>, r: Resource): seq<Resource>
  {
    if held == [] then []
    else
      var n := |held| - 1;
      if held[n] == r then held[..n] else Without(held[..n], r) + [held[n]]
  }

  // ---- The steps of load and unload ----

  function SysfsInitSteps(k: Registry, f: Faults): (Registry, bool)
  {
    if f.policy then (k, false)
    else
      var k := Add(k, Policy);
      if f.thresholds then (Remove(k, Policy), false)
      else
        var k := Add(k, Thresholds);
        if f.status then (Remove(Remove(k, Thresholds), Policy), false)
        else (Add(k, Status), true)
  }

  function InitSteps(k: Registry, f: Faults): (Registry, bool)
  {
    if f.chrdev then (k, false)
    else
      var k := Add(k, Chrdev);
      if f.class_ then (Remove(k, Chrdev), false)
      else
        var k := Add(k, Class);
        if f.device then (Remove(Remove(k, Class), Chrdev), false)
        else
          var k := Add(k, Device);
          if f.platformDevice then (Add(k, Timer), true)
          else (SysfsInitSteps(Add(Add(k, PlatformDevice), Timer), f).0, true)
  }

  /** Removal in the driver's order; the groups and the platform device only if the latter exists. */
  function ExitSteps(k: Registry, platformDevice: bool): Registry
  {
    var k := if platformDevice then Remove(Remove(Remove(k, Status), Thresholds), Policy) else k;
    var k := Remove(k, Timer);
    var k := if platformDevice then Remove(k, PlatformDevice) else k;
    Remove(Remove(Remove(k, Device), Class), Chrdev)
  }

  /** The module's entry points, changing the kernel's registry one registration at a time. */
  class KernelModule {
    var platformDevice: bool
    ghost var registry: Registry

    constructor ()
      ensures registry == Registry([], 0, 0) && !platformDevice
    {
      platformDevice := false;
      registry := Registry([], 0, 0);
    }

    method Register(r: Resource, refused: bool) returns (ok: bool)
      modifies this`registry
      ensures ok == !refused
      ensures registry == if ok then Add(old(registry), r) else old(registry)
    {
      if refused {
        return false;
      }
      registry := Add(registry, r);
      return true;
    }

    method Unregister(r: Resource)
      modifies this`registry
      ensures registry == Remove(old(registry), r)
    {
      registry := Remove(registry, r);
    }

    /** mem_hint_sysfs_init: all three groups or none, with a rollback in reverse order. */
    method SysfsInit(f: Faults) returns (ok: bool)
      modifies this`registry
      ensures (registry, ok) == SysfsInitSteps(old(registry), f)
      ensures ok == GroupsSucceed(f)
      ensures registry == old(registry).(held := old(registry).held + if ok then GROUPS else [])
    {
      ghost var was := registry;
      SysfsInitEffect(was, f);
      ok := Register(Policy, f.policy);
      if !ok { return; }
      ok := Register(Thresholds, f.thresholds);
      if !ok {
        Unregister(Policy);
        return;
      }
      ok := Register(Status, f.status);
      if !ok {
        Unregister(Thresholds);
        Unregister(Policy);
      }
    }

    /** mem_hint_init. The result of the sysfs registration is ignored, as in the driver. */
    method Init(f: Faults) returns (ok: bool)
      modifies this
      ensures (registry, ok) == InitSteps(old(registry), f)
      ensures ok == LoadSucceeds(f)
      ensures registry == old(registry).(held := old(registry).held + Granted(f))
      ensures platformDevice == if ok then !f.platformDevice else old(platformDevice)
    {
      InitEffect(registry, f);
      ok := Register(Chrdev, f.chrdev);
      if !ok { return; }
      ok := Register(Class, f.class_);
      if !ok {
        Unregister(Chrdev);
        return;
      }
      ok := Register(Device, f.device);
      if !ok {
        Unregister(Class);
        Unregister(Chrdev);
        return;
      }
      platformDevice := Register(PlatformDevice, f.platformDevice);
      var _ := Register(Timer, false);
      if platformDevice {
        var _ := SysfsInit(f);
      }
    }

    /** mem_hint_exit: after any successful load nothing is left, and what went wrong is counted. */
    method Exit()
      modifies this`registry
      ensures registry == ExitSteps(old(registry), platformDevice)
      ensures forall f :: LoadSucceeds(f) && old(registry).held == Granted(f) && platformDevice == !f.platformDevice ==>
                registry == Registry([], old(registry).stray + if StrayCycle(f) then 3 else 0, old(registry).outOfOrder)
    {
      ghost var was := registry;
      forall f | LoadSucceeds(f) && was.held == Granted(f) && platformDevice == !f.platformDevice
        ensures ExitSteps(was, platformDevice)
                == Registry([], was.stray + if StrayCycle(f) then 3 else 0, was.outOfOrder)
      {
        ExitEffect(was, f);
      }
      if platformDevice {
        Unregister(Status);
        Unregister(Thresholds);
        Unregister(Policy);
      }
      Unregister(Timer);
      if platformDevice {
        Unregister(PlatformDevice);
      }
      Unregister(Device);
      Unregister(Class);
      Unregister(Chrdev);
    }

    /** Any sequence of loads and unloads, an unload being possible only while loaded and a load only
        while not. */
    method Replay(commands: seq<Command>) returns (loaded: bool)
      requires registry == Registry([], 0, 0)
      modifies this
      ensures registry == After(commands).registry && loaded == After(commands).loaded
      ensures !loaded ==> registry.held == []
      ensures registry.outOfOrder == 0
    {
      loaded := false;
      for i := 0 to |commands|
        invariant registry == After(commands[..i]).registry && loaded == After(commands[..i]).loaded
        invariant loaded ==> platformDevice == After(commands[..i]).platformDevice
      {
        assert commands[..i + 1][..i] == commands[..i];
        match commands[i] {
          case Load(f) =>
            if !loaded {
              loaded := Init(f);
            }
          case Unload =>
            if loaded {
              Exit();
              loaded := false;
            }
        }
      }
      assert commands[..|commands|] == commands;
      NothingLeaks(commands);
    }
  }

  // ---- What a load and an unload come to ----

  const GROUPS: seq<Resource> := [Policy, Thresholds, Status]

  predicate LoadSucceeds(f: Faults) { !f.chrdev && !f.class_ && !f.device }

  predicate GroupsSucceed(f: Faults) { !f.policy && !f.thresholds && !f.status }

  /** What a load leaves registered, oldest first: nothing when it fails; when it succeeds, the device
      node and the timer always, the platform device if the kernel granted it, and the sysfs groups all
      or none. */
  function Granted(f: Faults): seq<Resource>
  {
    if !LoadSucceeds(f) then []
    else if f.platformDevice then [Chrdev, Class, Device, Timer]
    else [Chrdev, Class, Device, PlatformDevice, Timer] + if GroupsSucceed(f) then GROUPS else []
  }

  /** Whatever was registered before stays; a refusal at any point undoes exactly what was added. */
  lemma SysfsInitEffect(k: Registry, f: Faults)
    ensures SysfsInitSteps(k, f) == (k.(held := k.held + if GroupsSucceed(f) then GROUPS else []), GroupsSucceed(f))
  {
    var k1 := Add(k, Policy);
    var k2 := Add(k1, Thresholds);
    assert Remove(k1, Policy) == k && Remove(k2, Thresholds) == k1;
    assert Add(k2, Status).held == k.held + GROUPS;
    assert k.held + [] == k.held;
  }

  lemma InitEffect(k: Registry, f: Faults)
    ensures InitSteps(k, f) == (k.(held := k.held + Granted(f)), LoadSucceeds(f))
  {
    var k1 := Add(k, Chrdev);
    var k2 := Add(k1, Class);
    var k3 := Add(k2, Device);
    assert Remove(k1, Chrdev) == k && Remove(k2, Class) == k1;
    var five := [Chrdev, Class, Device, PlatformDevice, Timer];
    var k5 := Add(Add(k3, PlatformDevice), Timer);
    assert k5.held == k.held + five;
    assert k.held + five + GROUPS == k.held + (five + GROUPS) && k.held + five + [] == k.held + (five + []);
    SysfsInitEffect(k5, f);
    assert Add(k3, Timer).held == k.held + [Chrdev, Class, Device, Timer];
    assert k.held + [] == k.held;
  }

  /** The platform device was granted and one of the groups refused, which init does not report. */
  ghost predicate StrayCycle(f: Faults)
  {
    LoadSucceeds(f) && !f.platformDevice && !GroupsSucceed(f)
  }

  /** An unload takes back a load's registrations in the reverse of their order, and tries to remove
      three groups that are not there exactly after a load that was refused one of them. */
  lemma ExitEffect(k: Registry, f: Faults)
    requires LoadSucceeds(f) && k.held == Granted(f)
    ensures ExitSteps(k, !f.platformDevice)
            == Registry([], k.stray + if StrayCycle(f) then 3 else 0, k.outOfOrder)
  {
    if f.platformDevice {
      TailRemoved(k, [Chrdev, Class, Device], Timer);
      NodeRemoved(k.(held := [Chrdev, Class, Device]));
    } else {
      if GroupsSucceed(f) {
        GroupsRemoved(k, [Chrdev, Class, Device, PlatformDevice, Timer]);
      } else {
        GroupsMissed(k);
      }
      RestRemoved(Remove(Remove(Remove(k, Status), Thresholds), Policy));
    }
  }

  lemma GroupsMissed(k: Registry)
    requires forall g :: g in GROUPS ==> g !in k.held
    ensures Remove(Remove(Remove(k, Status), Thresholds), Policy) == k.(stray := k.stray + 3)
  {
    assert Status in GROUPS && Thresholds in GROUPS && Policy in GROUPS;
  }

  lemma RestRemoved(k: Registry)
    requires k.held == [Chrdev, Class, Device, PlatformDevice, Timer]
    ensures Remove(Remove(Remove(Remove(Remove(k, Timer), PlatformDevice), Device), Class), Chrdev) == k.(held := [])
  {
    TailRemoved(k, [Chrdev, Class, Device, PlatformDevice], Timer);
    TailRemoved(k.(held := [Chrdev, Class, Device, PlatformDevice]), [Chrdev, Class, Device], PlatformDevice);
    NodeRemoved(k.(held := [Chrdev, Class, Device]));
  }

  lemma TailRemoved(k: Registry, held: seq<Resource>, r: Resource)
    requires k.held == held + [r]
    ensures Remove(k, r) == k.(held := held)
  {
  }

  lemma GroupsRemoved(k: Registry, held: seq<Resource>)
    requires k.held == held + GROUPS
    ensures Remove(Remove(Remove(k, Status), Thresholds), Policy) == k.(held := held)
  {
    assert k.held == held + [Policy, Thresholds] + [Status];
    assert held + [Policy, Thresholds] == held + [Policy] + [Thresholds];
  }

  lemma NodeRemoved(k: Registry)
    requires k.held == [Chrdev, Class, Device]
    ensures Remove(Remove(Remove(k, Device), Class), Chrdev) == k.(held := [])
  {
    assert k.held == [Chrdev, Class] + [Device];
    assert [Chrdev, Class] == [Chrdev] + [Class] && [Chrdev] == [] + [Chrdev];
  }

  // ---- Sequences of loads and unloads ----

  datatype Command = Load(faults: Faults) | Unload

  datatype ModuleState = ModuleState(registry: Registry, platformDevice: bool, loaded: bool)

  function After(commands: seq<Command>): ModuleState
  {
    if commands == [] then ModuleState(Registry([], 0, 0), false, false)
    else
      var m := After(commands[..|commands| - 1]);
      match commands[|commands| - 1]
      case Load(f) =>
        if m.loaded then m
        else
          var (registry, ok) := InitSteps(m.registry, f);
          ModuleState(registry, if ok then !f.platformDevice else m.platformDevice, ok)
      case Unload =>
        if !m.loaded then m else m.(registry := ExitSteps(m.registry, m.platformDevice), loaded := false)
  }

  /** What a module loaded under some faults holds. */
  ghost predicate LoadedUnder(m: ModuleState, f: Faults)
  {
    LoadSucceeds(f) && m.registry.held == Granted(f) && m.platformDevice == !f.platformDevice
  }

  /** Under every sequence of loads and unloads with any registrations failing: an unloaded module
      holds nothing; a loaded one holds exactly what its load was granted; and nothing was ever removed
      before something registered after it. */
  lemma {:induction false} NothingLeaks(commands: seq<Command>)
    ensures var m := After(commands);
            && (!m.loaded ==> m.registry.held == [])
            && (m.loaded ==> exists f :: LoadedUnder(m, f))
            && m.registry.outOfOrder == 0
  {
    if commands != [] {
      var before := commands[..|commands| - 1];
      NothingLeaks(before);
      var m := After(before);
      match commands[|commands| - 1]
      case Load(f) =>
        if !m.loaded {
          InitEffect(m.registry, f);
          assert [] + Granted(f) == Granted(f);
          assert LoadSucceeds(f) ==> LoadedUnder(After(commands), f);
        }
      case Unload =>
        if m.loaded {
          var f :| LoadedUnder(m, f);
          ExitEffect(m.registry, f);
        }
    }
  }

  /** Because init ignores the result of the sysfs registration, a load and unload cycle removes
      groups that were never registered exactly when the platform device was granted and one of the
      groups was refused; then it removes all three. */
  lemma StrayRemovalsIff(commands: seq<Command>, f: Faults)
    requires !After(commands).loaded && LoadSucceeds(f)
    ensures var before, after := After(commands), After(commands + [Load(f), Unload]);
            && after.registry.held == [] && !after.loaded
            && after.registry.stray == before.registry.stray + if StrayCycle(f) then 3 else 0
  {
    var loaded := commands + [Load(f)];
    var cycle := commands + [Load(f), Unload];
    assert cycle[..|cycle| - 1] == loaded;
    assert loaded[..|loaded| - 1] == commands;
    NothingLeaks(commands);
    InitEffect(After(commands).registry, f);
    assert [] + Granted(f) == Granted(f);
    ExitEffect(After(loaded).registry, f);
  }
}
