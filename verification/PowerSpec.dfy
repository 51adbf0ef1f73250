/** The values the power HAL works on and what each locked section does to them.

    Times are nanoseconds of the steady clock; `NONE` is a default-constructed
    time point (no deadline) and `NEVER` is the greatest one.  Every outcome that
    the kernel decides (a clock reading, whether an open or a write succeeds,
    which descriptor number is handed out) is a parameter.
  */
module PowerSpec {

  const MS := 1_000_000
  const NONE := 0
  const NEVER := 0x7fff_ffff_ffff_ffff
  const MAX_BOOST_MS := 2000
  const RETRY_MS := 100
  const SOURCES := 3

  datatype Config = Config(foreground: int, base: int, active: int,
                           interactionMs: int, displayMs: int, launchMs: int)

  const DEFAULTS := Config(10, 15, 30, 500, 120, 1000)

  ghost predicate ValidConfig(c: Config) {
    && 0 <= c.foreground <= 50
    && 0 <= c.base <= c.active <= 50
    && 40 <= c.interactionMs <= MAX_BOOST_MS
    && 40 <= c.displayMs <= MAX_BOOST_MS
    && 40 <= c.launchMs <= MAX_BOOST_MS
  }

  /** What the scan of the configuration file gives: the number of fields matched
      and the fields (meaningful only when all six matched). */
  datatype ConfigFile = Missing | Scanned(count: int, fields: Config)

  function LoadConfig(file: ConfigFile): (c: Config)
    ensures ValidConfig(c)
    ensures file.Missing? ==> c == Config(10, 15, 30, 500, 120, 1000)
    ensures c == DEFAULTS || (file.Scanned? && file.count == 6 && c == file.fields)
    ensures file.Scanned? && file.count == 6 && ValidConfig(file.fields) ==> c == file.fields
  {
    if file.Missing? then DEFAULTS
    else
      var f := file.fields;
      if file.count != 6 || f.foreground < 0 || f.foreground > 50 || f.base < 0 || f.base > 50
         || f.active < f.base || f.active > 50 || f.interactionMs < 40 || f.interactionMs > 2000
         || f.displayMs < 40 || f.displayMs > 2000 || f.launchMs < 40 || f.launchMs > 2000
      then DEFAULTS
      else f
  }

  datatype Modes = Modes(interactive: bool, displayInactive: bool, lowPower: bool,
                         sustained: bool, rendering: bool, stopped: bool)

  const INITIAL_MODES := Modes(true, false, false, false, false, false)

  /** A new request is taken in these modes ... */
  predicate Accepting(m: Modes) {
    m.interactive && !m.displayInactive && !m.lowPower && !m.sustained
  }

  /** ... and a pending one survives in these. */
  predicate Allowed(m: Modes) {
    Accepting(m) && !m.stopped
  }

  /** The nodes the boost writes, and the CPU-floor requests that are open in the
      kernel: descriptor to cluster number. */
  datatype Kernel = Kernel(foregroundNode: int, topAppNode: int, floors: map<int, nat>)

  /** The hotplug profile and the GPU limits: what was applied, and the nodes. */
  datatype Limits = Limits(profileApplied: bool, gpuFloor: int, gpuCeiling: int,
                           profileNode: int, gpuMinNode: int, gpuMaxNode: int)

  /** `-1` in an applied-value field says that nothing was applied yet. */
  datatype State = State(cfg: Config, modes: Modes, deadlines: seq<int>,
                         fds: seq<int>, floorReady: bool,
                         appliedForeground: int, appliedBoost: int,
                         kernel: Kernel, limits: Limits)

  /** Before the constructor's first pass; the nodes hold whatever they held. */
  function Blank(c: Config, k: Kernel, l: Limits): State {
    State(c, INITIAL_MODES, [NONE, NONE, NONE], [-1, -1], true, -1, -1, k,
          l.(profileApplied := false, gpuFloor := -1, gpuCeiling := -1))
  }

  ghost predicate Shaped(s: State) {
    |s.deadlines| == SOURCES && |s.fds| == 2
  }

  datatype FloorAttempt = OpenFails | WriteFails(fd: nat) | Acquires(fd: nat)

  /** The outcomes met by one pass over the boost state. */
  datatype ApplyEnv = ApplyEnv(foregroundOk: bool, now: int, floor: seq<FloorAttempt>, topAppOk: bool)

  /** The clock is not negative and an open returns a descriptor that is not in use. */
  predicate EnvOk(s: State, e: ApplyEnv) {
    && 0 <= e.now
    && |e.floor| == 2
    && (forall i :: 0 <= i < 2 && !e.floor[i].OpenFails? ==> e.floor[i].fd !in s.kernel.floors)
    && (e.floor[0].Acquires? && !e.floor[1].OpenFails? ==> e.floor[0].fd != e.floor[1].fd)
  }

  // ---- deadlines

  predicate Pending(ds: seq<int>) {
    exists i :: 0 <= i < |ds| && ds[i] != NONE
  }

  function Prune(ds: seq<int>, allowed: bool, now: int): seq<int> {
    seq(|ds|, i requires 0 <= i < |ds| => if allowed && ds[i] > now then ds[i] else NONE)
  }

  function Clamp(durationMs: int, defaultMs: int): int {
    if durationMs == 0 then defaultMs
    else if durationMs < MAX_BOOST_MS then durationMs else MAX_BOOST_MS
  }

  function Requested(ds: seq<int>, m: Modes, source: nat, durationMs: int, defaultMs: int, at: int): (r: seq<int>)
    requires source < |ds|
    ensures |r| == |ds|
  {
    if durationMs < 0 then ds[source := NONE]
    else if Accepting(m) then
      var until := at + Clamp(durationMs, defaultMs) * MS;
      ds[source := if ds[source] > until then ds[source] else until]
    else ds
  }

  /** The earliest pending deadline, `NEVER` when there is none. */
  function Earliest(ds: seq<int>): int {
    if ds == [] then NEVER
    else
      var rest := Earliest(ds[..|ds| - 1]);
      var last := ds[|ds| - 1];
      if last != NONE && last < rest then last else rest
  }

  // ---- CPU floor

  /** The floor requests that the two descriptors stand for. */
  function Held(fds: seq<int>): map<int, nat>
    requires |fds| == 2
  {
    (if fds[0] >= 0 then map[fds[0] := 0] else map[]) + (if fds[1] >= 0 then map[fds[1] := 1] else map[])
  }

  predicate BothOrNeither(fds: seq<int>) {
    |fds| == 2 && (fds == [-1, -1] || (fds[0] >= 0 && fds[1] >= 0 && fds[0] != fds[1]))
  }

  predicate FloorHeld(fds: seq<int>) {
    |fds| == 2 && fds[0] >= 0 && fds[1] >= 0
  }

  /** All or nothing: the floor is kept, acquired on both clusters, or not held at all. */
  function FloorAfter(fds: seq<int>, active: bool, attempts: seq<FloorAttempt>): (r: seq<int>)
    requires |fds| == 2 && |attempts| == 2
    ensures |r| == 2
  {
    if !active then [-1, -1]
    else if FloorHeld(fds) then fds
    else if attempts[0].Acquires? && attempts[1].Acquires? then [attempts[0].fd as int, attempts[1].fd as int]
    else [-1, -1]
  }

  // ---- locked sections

  function BoostValue(c: Config, ds: seq<int>): int {
    if Pending(ds) then c.active else c.base
  }

  function ApplyBoost(s: State, e: ApplyEnv): (r: State)
    requires Shaped(s) && |e.floor| == 2
    ensures Shaped(r)
  {
    var ds := Prune(s.deadlines, Allowed(s.modes), e.now);
    var fds := FloorAfter(s.fds, Pending(ds), e.floor);
    var want := BoostValue(s.cfg, ds);
    var writesForeground := s.appliedForeground != s.cfg.foreground && e.foregroundOk;
    var writesTop := s.appliedBoost != want && e.topAppOk;
    s.(deadlines := ds,
       fds := fds,
       floorReady := Pending(ds) ==> FloorHeld(fds),
       appliedForeground := if writesForeground then s.cfg.foreground else s.appliedForeground,
       appliedBoost := if writesTop then want else s.appliedBoost,
       kernel := s.kernel.(
         foregroundNode := if writesForeground then s.cfg.foreground else s.kernel.foregroundNode,
         topAppNode := if writesTop then want else s.kernel.topAppNode,
         floors := Held(fds)))
  }

  function RequestBoost(s: State, source: nat, durationMs: int, defaultMs: int, at: int, e: ApplyEnv): State
    requires Shaped(s) && |e.floor| == 2 && source < SOURCES
  {
    ApplyBoost(s.(deadlines := Requested(s.deadlines, s.modes, source, durationMs, defaultMs, at)), e)
  }

  const GPU_UNLOCK := 0
  const GPU_FLOOR_RENDERING := 420
  const GPU_CEILING_LIMITED := 544
  const PROFILE_HIGH := 0
  const PROFILE_ECO := 2

  function GpuFloorFor(m: Modes): int {
    if m.interactive && !m.displayInactive && m.rendering then GPU_FLOOR_RENDERING else GPU_UNLOCK
  }

  function GpuCeilingFor(m: Modes): int {
    if m.lowPower || m.sustained then GPU_CEILING_LIMITED else GPU_UNLOCK
  }

  function ApplyGpuFloor(l: Limits, m: Modes, ok: bool): Limits {
    var floor := GpuFloorFor(m);
    if l.gpuFloor != floor && ok then l.(gpuFloor := floor, gpuMinNode := floor) else l
  }

  function ApplyGpuCeiling(l: Limits, m: Modes, ok: bool): Limits {
    var ceiling := GpuCeilingFor(m);
    if l.gpuCeiling != ceiling && ok then l.(gpuCeiling := ceiling, gpuMaxNode := ceiling) else l
  }

  /** The outcomes met by one mode call. */
  datatype ModeEnv = ModeEnv(profileOk: bool, gpuFloorOk: bool, gpuCeilingOk: bool,
                             at: int, launch: ApplyEnv, apply: ApplyEnv)

  function ProfileFor(m: Modes): int {
    if m.lowPower then PROFILE_ECO else PROFILE_HIGH
  }

  /** `m` are the modes with the new low-power flag in place. */
  function ApplyPowerProfile(l: Limits, m: Modes, v: ModeEnv): Limits {
    var written := l.(profileApplied := v.profileOk,
                      profileNode := if v.profileOk then ProfileFor(m) else l.profileNode);
    ApplyGpuFloor(ApplyGpuCeiling(written, m, v.gpuCeilingOk), m, v.gpuFloorOk)
  }

  datatype Mode = LowPower | SustainedPerformance | Launch | ExpensiveRendering
                | Interactive | DisplayInactive | OtherMode

  datatype Boost = Interaction | DisplayUpdateImminent | OtherBoost

  function Switched(m: Modes, mode: Mode, on: bool): Modes {
    match mode
    case LowPower => m.(lowPower := on)
    case SustainedPerformance => m.(sustained := on)
    case ExpensiveRendering => m.(rendering := on)
    case Interactive => m.(interactive := on)
    case DisplayInactive => m.(displayInactive := on)
    case Launch => m
    case OtherMode => m
  }

  /** The call writes the profile, and both GPU limits after it. */
  predicate TriesProfile(l: Limits, m: Modes, mode: Mode, on: bool) {
    mode.LowPower? && (m.lowPower != on || !l.profileApplied)
  }

  /** The call comes to the GPU floor ... */
  predicate TriesFloor(l: Limits, m: Modes, mode: Mode, on: bool) {
    mode.ExpensiveRendering? || mode.Interactive? || mode.DisplayInactive? || TriesProfile(l, m, mode, on)
  }

  /** ... and to the GPU ceiling. */
  predicate TriesCeiling(l: Limits, m: Modes, mode: Mode, on: bool) {
    mode.SustainedPerformance? || TriesProfile(l, m, mode, on)
  }

  function LimitsAfter(l: Limits, m: Modes, mode: Mode, on: bool, v: ModeEnv): Limits {
    var after := Switched(m, mode, on);
    match mode
    case LowPower =>
      if m.lowPower != on || !l.profileApplied then ApplyPowerProfile(l, after, v) else l
    case SustainedPerformance => ApplyGpuCeiling(l, after, v.gpuCeilingOk)
    case ExpensiveRendering => ApplyGpuFloor(l, after, v.gpuFloorOk)
    case Interactive => ApplyGpuFloor(l, after, v.gpuFloorOk)
    case DisplayInactive => ApplyGpuFloor(l, after, v.gpuFloorOk)
    case Launch => l
    case OtherMode => l
  }

  /** The part of a mode call before its final pass over the boost state. */
  function SwitchMode(s: State, mode: Mode, enabled: bool, v: ModeEnv): (r: State)
    requires Shaped(s) && |v.launch.floor| == 2
    ensures Shaped(r)
  {
    if mode.Launch? then
      RequestBoost(s, 2, if enabled then s.cfg.launchMs else -1, s.cfg.launchMs, v.at, v.launch)
    else
      s.(modes := Switched(s.modes, mode, enabled), limits := LimitsAfter(s.limits, s.modes, mode, enabled, v))
  }

  function SetMode(s: State, mode: Mode, enabled: bool, v: ModeEnv): State
    requires Shaped(s) && |v.launch.floor| == 2 && |v.apply.floor| == 2
  {
    ApplyBoost(SwitchMode(s, mode, enabled, v), v.apply)
  }

  predicate ModeEnvOk(s: State, mode: Mode, enabled: bool, v: ModeEnv)
    requires Shaped(s)
  {
    && 0 <= v.at <= v.launch.now <= v.apply.now
    && EnvOk(s, v.launch)
    && EnvOk(SwitchMode(s, mode, enabled, v), v.apply)
  }

  function SetBoost(s: State, boost: Boost, durationMs: int, at: int, e: ApplyEnv): State
    requires Shaped(s) && |e.floor| == 2
  {
    match boost
    case Interaction => RequestBoost(s, 0, durationMs, s.cfg.interactionMs, at, e)
    case DisplayUpdateImminent => RequestBoost(s, 1, durationMs, s.cfg.displayMs, at, e)
    case OtherBoost => s
  }

  function Destroy(s: State, e: ApplyEnv): State
    requires Shaped(s) && |e.floor| == 2
  {
    ApplyBoost(s.(modes := s.modes.(stopped := true), deadlines := [NONE, NONE, NONE]), e)
  }

  /** Something the worker has to try again. */
  predicate Outstanding(s: State) {
    || BoostValue(s.cfg, s.deadlines) != s.appliedBoost
    || s.appliedForeground != s.cfg.foreground
    || !s.floorReady
  }

  /** Where the worker thread stands between two locked sections. */
  datatype Worker = Ready | WaitUntimed | WaitTimed(wake: int, slept: int) | Exited

  /** How long the worker sleeps after its pass; `late` is its second clock reading. */
  function WaitAfter(s: State, late: int): Worker {
    var next := Earliest(s.deadlines);
    var bounded := if Outstanding(s) && late + RETRY_MS * MS < next then late + RETRY_MS * MS else next;
    if bounded == NEVER then WaitUntimed else WaitTimed(bounded, late)
  }

  // ---- the invariant of every unlocked state

  /** An applied value is what the node holds. */
  ghost predicate LimitsCoherent(l: Limits, m: Modes) {
    && (l.gpuFloor == -1 || l.gpuMinNode == l.gpuFloor)
    && (l.gpuCeiling == -1 || l.gpuMaxNode == l.gpuCeiling)
    && (l.profileApplied ==> l.profileNode == ProfileFor(m))
  }

  ghost predicate StateInv(s: State) {
    && Shaped(s)
    && ValidConfig(s.cfg)
    && BothOrNeither(s.fds)
    && s.kernel.floors == Held(s.fds)
    && (s.appliedForeground == -1 || s.kernel.foregroundNode == s.appliedForeground)
    && (s.appliedBoost == -1 || s.kernel.topAppNode == s.appliedBoost)
    && LimitsCoherent(s.limits, s.modes)
  }

  /** What the pass over the boost state leaves, and every other section keeps
      until the modes or the deadlines change. */
  ghost predicate Settled(s: State)
    requires Shaped(s)
  {
    && (Pending(s.deadlines) ==> Allowed(s.modes))
    && (FloorHeld(s.fds) ==> Pending(s.deadlines))
    && (s.floorReady <==> (Pending(s.deadlines) ==> FloorHeld(s.fds)))
  }

  lemma ApplyBoostKeeps(s: State, e: ApplyEnv)
    requires StateInv(s) && EnvOk(s, e)
    ensures StateInv(ApplyBoost(s, e)) && Settled(ApplyBoost(s, e))
    ensures forall i :: 0 <= i < SOURCES ==>
              var d := ApplyBoost(s, e).deadlines[i];
              d == NONE || (d == s.deadlines[i] && d > e.now)
  {
  }

  lemma LimitsStayCoherent(l: Limits, m: Modes, mode: Mode, on: bool, v: ModeEnv)
    requires LimitsCoherent(l, m)
    ensures LimitsCoherent(LimitsAfter(l, m, mode, on, v), Switched(m, mode, on))
  {
  }

  /** Exactly when a mode call leaves the floor node at what the modes then ask for: the
      call comes to it and the write works, or it was there already. */
  lemma FloorFollowsIff(l: Limits, m: Modes, mode: Mode, on: bool, v: ModeEnv)
    requires LimitsCoherent(l, m)
    ensures var after, want := LimitsAfter(l, m, mode, on, v), GpuFloorFor(Switched(m, mode, on));
            after.gpuMinNode == want <==> (TriesFloor(l, m, mode, on) && v.gpuFloorOk) || l.gpuMinNode == want
    ensures !(TriesFloor(l, m, mode, on) && v.gpuFloorOk) ==> LimitsAfter(l, m, mode, on, v).gpuMinNode == l.gpuMinNode
    ensures !TriesFloor(l, m, mode, on) ==> GpuFloorFor(Switched(m, mode, on)) == GpuFloorFor(m)
  {
  }

  /** The same for the ceiling. */
  lemma CeilingFollowsIff(l: Limits, m: Modes, mode: Mode, on: bool, v: ModeEnv)
    requires LimitsCoherent(l, m)
    ensures var after, want := LimitsAfter(l, m, mode, on, v), GpuCeilingFor(Switched(m, mode, on));
            after.gpuMaxNode == want <==> (TriesCeiling(l, m, mode, on) && v.gpuCeilingOk) || l.gpuMaxNode == want
    ensures !(TriesCeiling(l, m, mode, on) && v.gpuCeilingOk) ==>
              LimitsAfter(l, m, mode, on, v).gpuMaxNode == l.gpuMaxNode
    ensures !TriesCeiling(l, m, mode, on) ==> GpuCeilingFor(Switched(m, mode, on)) == GpuCeilingFor(m)
  {
  }

  /** The profile node and what is remembered of its write, for each outcome. */
  lemma ProfileExact(l: Limits, m: Modes, mode: Mode, on: bool, v: ModeEnv)
    ensures var after := LimitsAfter(l, m, mode, on, v);
            if mode.LowPower? && (m.lowPower != on || !l.profileApplied) then
              && after.profileApplied == v.profileOk
              && after.profileNode == if !v.profileOk then l.profileNode else if on then 2 else 0
            else after.profileApplied == l.profileApplied && after.profileNode == l.profileNode
  {
  }

  lemma SwitchModeKeeps(s: State, mode: Mode, enabled: bool, v: ModeEnv)
    requires StateInv(s) && |v.launch.floor| == 2 && EnvOk(s, v.launch)
    ensures StateInv(SwitchMode(s, mode, enabled, v))
  {
    if mode.Launch? {
      var ms := if enabled then s.cfg.launchMs else -1;
      ApplyBoostKeeps(s.(deadlines := Requested(s.deadlines, s.modes, 2, ms, s.cfg.launchMs, v.at)), v.launch);
    } else {
      LimitsStayCoherent(s.limits, s.modes, mode, enabled, v);
    }
  }
}
