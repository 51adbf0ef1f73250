/** The power HAL object.  Each method is one locked section (or a part of one)
    and is proved against the function of the same name in `PowerSpec`. */
module PowerHal {
  import opened PowerSpec

  class Power {
    var cfg: Config
    var modes: Modes
    const deadlines: array<int>
    const fds: array<int>
    var floorReady: bool
    var appliedForeground: int
    var appliedBoost: int
    var kernel: Kernel
    var limits: Limits

    ghost predicate Valid()
      reads this, deadlines, fds
    {
      && deadlines.Length == SOURCES
      && fds.Length == 2
      && deadlines != fds
      && StateInv(View())
    }

    ghost function View(): State
      reads this, deadlines, fds
    {
      State(cfg, modes, deadlines[..], fds[..], floorReady, appliedForeground, appliedBoost,
            kernel, limits)
    }

    constructor (file: ConfigFile, k: Kernel, l: Limits, v: ModeEnv)
      requires k.floors == map[]
      requires EnvOk(Blank(LoadConfig(file), k, l), v.apply)
      ensures Valid() && fresh(deadlines) && fresh(fds)
      ensures var s := ApplyBoost(Blank(LoadConfig(file), k, l), v.apply);
              View() == s.(limits := ApplyPowerProfile(s.limits, s.modes, v))
    {
      cfg := LoadConfig(file);
      modes := INITIAL_MODES;
      deadlines := new int[SOURCES](_ => NONE);
      fds := new int[2](_ => -1);
      floorReady := true;
      appliedForeground := -1;
      appliedBoost := -1;
      kernel := k;
      limits := l.(profileApplied := false, gpuFloor := -1, gpuCeiling := -1);
      new;
      assert deadlines[..] == [NONE, NONE, NONE];
      assert fds[..] == [-1, -1];
      assert View() == Blank(LoadConfig(file), k, l);
      ApplyBoostLocked(v.apply);
      ApplyPowerProfileLocked(false, v);
    }

    method ReleaseFloors()
      requires fds.Length == 2
      modifies fds, this`kernel
      ensures fds[..] == [-1, -1]
      ensures kernel == old(kernel).(floors := old(kernel).floors - old(Held(fds[..]).Keys))
    {
      var i := 0;
      while i < fds.Length
        invariant 0 <= i <= 2
        invariant forall j :: 0 <= j < i ==> fds[j] == -1
        invariant forall j :: i <= j < 2 ==> fds[j] == old(fds[j])
        invariant kernel == old(kernel).(floors := old(kernel).floors
                            - (set j | 0 <= j < i && old(fds[j]) >= 0 :: old(fds[j])))
      {
        if fds[i] >= 0 {
          kernel := kernel.(floors := kernel.floors - {fds[i]});
        }
        fds[i] := -1;
        i := i + 1;
      }
      assert (set j | 0 <= j < 2 && old(fds[j]) >= 0 :: old(fds[j])) == old(Held(fds[..]).Keys);
    }

    method ApplyCpuFloorLocked(active: bool, e: ApplyEnv)
      requires Valid() && EnvOk(View(), e)
      modifies fds, this`kernel, this`floorReady
      ensures fds[..] == FloorAfter(old(fds[..]), active, e.floor)
      ensures kernel == old(kernel).(floors := Held(fds[..]))
      ensures floorReady == (active ==> FloorHeld(fds[..]))
    {
      if !active {
        ReleaseFloors();
        floorReady := true;
        return;
      }
      var i := 0;
      while i < fds.Length
        invariant 0 <= i <= 2
        invariant forall j :: i <= j < 2 ==> fds[j] == old(fds[j])
        invariant forall j :: 0 <= j < i ==>
          fds[j] == if old(fds[j]) >= 0 then old(fds[j]) else if e.floor[j].Acquires? then e.floor[j].fd else -1
        invariant forall j :: 0 <= j < i ==> fds[j] >= 0
        invariant kernel == old(kernel).(floors := Held(fds[..]))
      {
        if fds[i] < 0 {
          match e.floor[i] {
            case OpenFails =>
              break;
            case WriteFails(fd) =>
              kernel := kernel.(floors := kernel.floors[fd as int := i]);
              kernel := kernel.(floors := kernel.floors - {fd as int});
              break;
            case Acquires(fd) =>
              kernel := kernel.(floors := kernel.floors[fd as int := i]);
              fds[i] := fd;
          }
        }
        i := i + 1;
      }
      floorReady := fds[0] >= 0 && fds[1] >= 0;
      if !floorReady {
        ReleaseFloors();
        assert kernel.floors == map[];
      }
    }

    /** Drop every deadline when boosts are not allowed, and the ones that passed. */
    method PruneDeadlines(now: int) returns (active: bool)
      requires deadlines.Length == SOURCES && 0 <= now
      modifies deadlines
      ensures deadlines[..] == Prune(old(deadlines[..]), Allowed(modes), now)
      ensures active == Pending(deadlines[..])
    {
      if !Allowed(modes) {
        ClearDeadlines();
      }
      active := false;
      var i := 0;
      while i < deadlines.Length
        invariant 0 <= i <= SOURCES
        invariant forall j :: 0 <= j < i ==> deadlines[j] == Prune(old(deadlines[..]), Allowed(modes), now)[j]
        invariant forall j :: i <= j < SOURCES ==> deadlines[j] == if Allowed(modes) then old(deadlines[j]) else NONE
        invariant active <==> exists j :: 0 <= j < i && deadlines[j] != NONE
      {
        if deadlines[i] > now {
          active := true;
        } else {
          deadlines[i] := NONE;
        }
        i := i + 1;
      }
    }

    method ApplyBoostLocked(e: ApplyEnv)
      requires Valid() && EnvOk(View(), e)
      modifies this, deadlines, fds
      ensures Valid()
      ensures View() == ApplyBoost(old(View()), e)
    {
      ghost var was := View();
      if appliedForeground != cfg.foreground {
        if e.foregroundOk {
          kernel := kernel.(foregroundNode := cfg.foreground);
          appliedForeground := cfg.foreground;
        }
      }
      var active := PruneDeadlines(e.now);
      assert kernel.floors == old(kernel.floors);
      ApplyCpuFloorLocked(active, e);
      var value := if active then cfg.active else cfg.base;
      if value != appliedBoost {
        if e.topAppOk {
          kernel := kernel.(topAppNode := value);
          appliedBoost := value;
        }
      }
      assert View() == ApplyBoost(was, e) by {
        assert deadlines[..] == Prune(was.deadlines, Allowed(was.modes), e.now);
        assert fds[..] == FloorAfter(was.fds, active, e.floor);
        assert value == BoostValue(was.cfg, deadlines[..]);
        assert kernel == ApplyBoost(was, e).kernel;
      }
      ApplyBoostKeeps(was, e);
    }

    method ClearDeadlines()
      requires deadlines.Length == SOURCES
      modifies deadlines
      ensures deadlines[..] == [NONE, NONE, NONE]
    {
      for i := 0 to deadlines.Length
        invariant forall j :: 0 <= j < i ==> deadlines[j] == NONE
      {
        deadlines[i] := NONE;
      }
    }

    method RequestBoostLocked(source: nat, durationMs: int, defaultMs: int, at: int, e: ApplyEnv)
      requires Valid() && EnvOk(View(), e) && source < SOURCES
      modifies this, deadlines, fds
      ensures Valid()
      ensures View() == RequestBoost(old(View()), source, durationMs, defaultMs, at, e)
    {
      if durationMs < 0 {
        deadlines[source] := NONE;
      } else if Accepting(modes) {
        var duration := if durationMs == 0 then defaultMs
                        else if durationMs < MAX_BOOST_MS then durationMs else MAX_BOOST_MS;
        var until := at + duration * MS;
        if deadlines[source] < until {
          deadlines[source] := until;
        }
      }
      assert deadlines[..] == Requested(old(deadlines[..]), modes, source, durationMs, defaultMs, at);
      ApplyBoostLocked(e);
    }

    /** The body of the worker's loop while the HAL is not being destroyed. */
    method BoostWorker(e: ApplyEnv, late: int) returns (wait: Worker)
      requires Valid() && EnvOk(View(), e)
      requires forall i :: 0 <= i < SOURCES ==> deadlines[i] < NEVER
      modifies this, deadlines, fds
      ensures Valid()
      ensures View() == ApplyBoost(old(View()), e)
      ensures wait == WaitAfter(View(), late)
    {
      ApplyBoostKeeps(View(), e);
      ApplyBoostLocked(e);
      var next := NEVER;
      var i := 0;
      while i < deadlines.Length
        invariant 0 <= i <= SOURCES
        invariant next == Earliest(deadlines[..i])
        invariant next == NEVER <==> !Pending(deadlines[..i])
      {
        assert deadlines[..i + 1][..i] == deadlines[..i];
        assert forall j :: 0 <= j < i ==> deadlines[..i + 1][j] == deadlines[..i][j];
        if deadlines[i] != NONE {
          assert deadlines[..i + 1][i] != NONE;
          next := if deadlines[i] < next then deadlines[i] else next;
        }
        i := i + 1;
      }
      assert deadlines[..i] == deadlines[..];
      var desired := if next == NEVER then cfg.base else cfg.active;
      if desired != appliedBoost || appliedForeground != cfg.foreground || !floorReady {
        next := if late + RETRY_MS * MS < next then late + RETRY_MS * MS else next;
      }
      if next == NEVER {
        wait := WaitUntimed;
      } else {
        wait := WaitTimed(next, late);
      }
    }

    method ApplyGpuFloorLocked(ok: bool)
      modifies this`limits
      ensures limits == ApplyGpuFloor(old(limits), modes, ok)
      ensures !ok ==> limits == old(limits)
      ensures ok && old(limits.gpuFloor == -1 || limits.gpuMinNode == limits.gpuFloor) ==>
                limits.gpuMinNode == limits.gpuFloor == GpuFloorFor(modes)
    {
      var floor := if modes.interactive && !modes.displayInactive && modes.rendering
                   then GPU_FLOOR_RENDERING else GPU_UNLOCK;
      if limits.gpuFloor != floor {
        if ok {
          limits := limits.(gpuMinNode := floor);
          limits := limits.(gpuFloor := floor);
        }
      }
    }

    method ApplyGpuCeilingLocked(ok: bool)
      modifies this`limits
      ensures limits == ApplyGpuCeiling(old(limits), modes, ok)
      ensures !ok ==> limits == old(limits)
      ensures ok && old(limits.gpuCeiling == -1 || limits.gpuMaxNode == limits.gpuCeiling) ==>
                limits.gpuMaxNode == limits.gpuCeiling == GpuCeilingFor(modes)
    {
      var ceiling := if modes.lowPower || modes.sustained then GPU_CEILING_LIMITED else GPU_UNLOCK;
      if limits.gpuCeiling != ceiling {
        if ok {
          limits := limits.(gpuMaxNode := ceiling);
          limits := limits.(gpuCeiling := ceiling);
        }
      }
    }

    method ApplyPowerProfileLocked(lowPower: bool, v: ModeEnv)
      modifies this`limits, this`modes
      ensures modes == old(modes).(lowPower := lowPower)
      ensures limits == ApplyPowerProfile(old(limits), modes, v)
    {
      if v.profileOk {
        limits := limits.(profileNode := if lowPower then PROFILE_ECO else PROFILE_HIGH);
      }
      modes := modes.(lowPower := lowPower);
      limits := limits.(profileApplied := v.profileOk);
      ApplyGpuCeilingLocked(v.gpuCeilingOk);
      ApplyGpuFloorLocked(v.gpuFloorOk);
    }

    /** The mode calls that only switch modes and limits. */
    method SwitchModeLocked(mode: Mode, enabled: bool, v: ModeEnv)
      requires !mode.Launch?
      modifies this`limits, this`modes
      ensures modes == Switched(old(modes), mode, enabled)
      ensures limits == LimitsAfter(old(limits), old(modes), mode, enabled, v)
    {
      match mode {
        case LowPower =>
          if modes.lowPower != enabled || !limits.profileApplied {
            ApplyPowerProfileLocked(enabled, v);
          }
        case SustainedPerformance =>
          modes := modes.(sustained := enabled);
          ApplyGpuCeilingLocked(v.gpuCeilingOk);
        case ExpensiveRendering =>
          modes := modes.(rendering := enabled);
          ApplyGpuFloorLocked(v.gpuFloorOk);
        case Interactive =>
          modes := modes.(interactive := enabled);
          ApplyGpuFloorLocked(v.gpuFloorOk);
        case DisplayInactive =>
          modes := modes.(displayInactive := enabled);
          ApplyGpuFloorLocked(v.gpuFloorOk);
        case OtherMode =>
      }
    }

    method SetModeLocked(mode: Mode, enabled: bool, v: ModeEnv)
      requires Valid() && ModeEnvOk(View(), mode, enabled, v)
      modifies this, deadlines, fds
      ensures Valid()
      ensures View() == SetMode(old(View()), mode, enabled, v)
    {
      ghost var was := View();
      SwitchModeKeeps(was, mode, enabled, v);
      if mode.Launch? {
        RequestBoostLocked(2, if enabled then cfg.launchMs else -1, cfg.launchMs, v.at, v.launch);
      } else {
        SwitchModeLocked(mode, enabled, v);
      }
      assert View() == SwitchMode(was, mode, enabled, v);
      ApplyBoostLocked(v.apply);
    }

    method SetBoostLocked(boost: Boost, durationMs: int, at: int, e: ApplyEnv)
      requires Valid() && EnvOk(View(), e)
      modifies this, deadlines, fds
      ensures Valid()
      ensures View() == SetBoost(old(View()), boost, durationMs, at, e)
    {
      match boost {
        case Interaction => RequestBoostLocked(0, durationMs, cfg.interactionMs, at, e);
        case DisplayUpdateImminent => RequestBoostLocked(1, durationMs, cfg.displayMs, at, e);
        case OtherBoost =>
      }
    }

    /** The locked part of the destructor. */
    method StopLocked(e: ApplyEnv)
      requires Valid() && EnvOk(View(), e)
      modifies this, deadlines, fds
      ensures Valid()
      ensures View() == Destroy(old(View()), e)
    {
      modes := modes.(stopped := true);
      ClearDeadlines();
      ApplyBoostLocked(e);
    }
  }
}
