/** Every interleaving of API calls, the destructor, the worker thread and the
    clock.  One step is one locked section; waiting releases the lock, and a
    notification reaches the worker only while it waits. */
module PowerRuns {
  import opened PowerSpec

  /** The API calls made so far, with the clock reading each one took. */
  datatype Event = ModeCall(mode: Mode, enabled: bool, at: int)
                 | BoostCall(boost: Boost, durationMs: int, at: int)
                 | Destroyed

  datatype Sys = Sys(p: State, worker: Worker, now: int, history: seq<Event>)

  datatype Step = CallSetMode(mode: Mode, enabled: bool, v: ModeEnv)
                | CallSetBoost(boost: Boost, durationMs: int, at: int, e: ApplyEnv)
                | CallDestructor(e: ApplyEnv)
                | WorkerPass(e: ApplyEnv, late: int)
                | WorkerStops
                | WorkerWakes
                | ClockAdvances(to: int)

  function Notify(w: Worker): Worker {
    if w.WaitUntimed? || w.WaitTimed? then Ready else w
  }

  /** The state the constructor leaves, with the worker about to take the lock. */
  ghost predicate Init(s: Sys) {
    exists c, k, l, v :: InitFrom(s, c, k, l, v)
  }

  ghost predicate InitFrom(s: Sys, c: Config, k: Kernel, l: Limits, v: ModeEnv) {
    && ValidConfig(c) && k.floors == map[]
    && EnvOk(Blank(c, k, l), v.apply)
    && var p := ApplyBoost(Blank(c, k, l), v.apply);
       s == Sys(p.(limits := ApplyPowerProfile(p.limits, p.modes, v)), Ready, v.apply.now, [])
  }

  ghost predicate Next(a: Sys, b: Sys, step: Step) {
    && Shaped(a.p)
    && b.now + MAX_BOOST_MS * MS < NEVER
    && match step
       case CallSetMode(mode, enabled, v) =>
         && a.now <= v.at
         && ModeEnvOk(a.p, mode, enabled, v)
         && b == Sys(SetMode(a.p, mode, enabled, v), Notify(a.worker), v.apply.now,
                     a.history + [ModeCall(mode, enabled, v.at)])
       case CallSetBoost(boost, ms, at, e) =>
         && a.now <= at <= e.now
         && EnvOk(a.p, e)
         && b == Sys(SetBoost(a.p, boost, ms, at, e), if boost.OtherBoost? then a.worker else Notify(a.worker),
                     e.now, a.history + [BoostCall(boost, ms, at)])
       case CallDestructor(e) =>
         && a.now <= e.now
         && EnvOk(a.p, e)
         && b == Sys(Destroy(a.p, e), Notify(a.worker), e.now, a.history + [Destroyed])
       case WorkerPass(e, late) =>
         && a.worker == Ready && !a.p.modes.stopped
         && a.now <= e.now <= late
         && EnvOk(a.p, e)
         && var p := ApplyBoost(a.p, e);
            b == Sys(p, WaitAfter(p, late), late, a.history)
       case WorkerStops =>
         a.worker == Ready && a.p.modes.stopped && b == a.(worker := Exited)
       case WorkerWakes =>
         (a.worker.WaitUntimed? || a.worker.WaitTimed?) && b == a.(worker := Ready)
       case ClockAdvances(to) =>
         a.now <= to && b == a.(now := to)
  }

  ghost predicate StepAt(run: seq<Sys>, steps: seq<Step>, i: nat)
    requires |run| == |steps| + 1 && i < |steps|
  {
    Next(run[i], run[i + 1], steps[i])
  }

  ghost predicate IsRun(run: seq<Sys>, steps: seq<Step>) {
    && |run| == |steps| + 1
    && Init(run[0])
    && forall i :: 0 <= i < |steps| ==> StepAt(run, steps, i)
  }

  // ---- what the request history says, without looking at the deadlines

  function ModesAfter(h: seq<Event>): Modes {
    if h == [] then INITIAL_MODES
    else
      var m := ModesAfter(h[..|h| - 1]);
      match h[|h| - 1]
      case ModeCall(mode, on, _) => Switched(m, mode, on)
      case BoostCall(_, _, _) => m
      case Destroyed => m.(stopped := true)
  }

  /** What the last call about this mode said, `first` if there was none. */
  function Last(h: seq<Event>, mode: Mode, first: bool): bool {
    if h == [] then first
    else
      var ev := h[|h| - 1];
      if ev.ModeCall? && ev.mode == mode then ev.enabled else Last(h[..|h| - 1], mode, first)
  }

  /** Boosts are allowed after these calls: the device is interactive and its display
      active, no power mode limits it, and nobody destroyed the HAL. */
  predicate BoostsAllowed(h: seq<Event>) {
    && Last(h, Interactive, true) && !Last(h, DisplayInactive, false)
    && !Last(h, LowPower, false) && !Last(h, SustainedPerformance, false)
    && Destroyed !in h
  }

  /** The modes are the last word on each of them. */
  lemma {:induction false} ModesReadOff(h: seq<Event>)
    ensures ModesAfter(h) == Modes(Last(h, Interactive, true), Last(h, DisplayInactive, false),
                                   Last(h, LowPower, false), Last(h, SustainedPerformance, false),
                                   Last(h, ExpensiveRendering, false), Destroyed in h)
  {
    if h != [] {
      var init, ev := h[..|h| - 1], h[|h| - 1];
      ModesReadOff(init);
      assert Destroyed in h <==> ev == Destroyed || Destroyed in init by {
        assert h == init + [ev];
      }
    }
  }

  lemma AllowedReadsOff(h: seq<Event>)
    ensures Allowed(ModesAfter(h)) <==> BoostsAllowed(h)
  {
    ModesReadOff(h);
  }

  /** A request of `ms` at `at` lasts beyond `t`: the default for 0, what was asked for up
      to two seconds, two seconds for more. */
  predicate Outlasts(ms: int, defaultMs: int, at: int, t: int) {
    || (ms == 0 && at + defaultMs * MS > t)
    || (1 <= ms <= 2000 && at + ms * MS > t)
    || (ms > 2000 && at + 2000 * MS > t)
  }

  lemma ClampOutlasts(ms: int, defaultMs: int, at: int, t: int)
    requires ms >= 0
    ensures at + Clamp(ms, defaultMs) * MS > t <==> Outlasts(ms, defaultMs, at, t)
  {
  }

  /** The call asks for a boost of `source` that lasts beyond `t`. */
  predicate Starts(c: Config, ev: Event, source: nat, t: int) {
    match ev
    case ModeCall(Launch, on, at) => source == 2 && on && at + c.launchMs * MS > t
    case BoostCall(Interaction, ms, at) => source == 0 && Outlasts(ms, c.interactionMs, at, t)
    case BoostCall(DisplayUpdateImminent, ms, at) => source == 1 && Outlasts(ms, c.displayMs, at, t)
    case _ => false
  }

  predicate Cancels(ev: Event, source: nat) {
    match ev
    case ModeCall(Launch, on, _) => source == 2 && !on
    case BoostCall(Interaction, ms, _) => source == 0 && ms < 0
    case BoostCall(DisplayUpdateImminent, ms, _) => source == 1 && ms < 0
    case _ => false
  }

  /** Boosts were allowed after the first `k` calls. */
  ghost predicate AllowedAt(h: seq<Event>, k: nat)
    requires k <= |h|
  {
    BoostsAllowed(h[..k])
  }

  /** Since call `i` boosts were always allowed and nobody cancelled `source`. */
  ghost predicate Undisturbed(h: seq<Event>, i: nat, source: nat) {
    && (forall k :: i <= k <= |h| ==> AllowedAt(h, k))
    && (forall j :: i < j < |h| ==> !Cancels(h[j], source))
  }

  ghost predicate Live(c: Config, h: seq<Event>, source: nat, t: int) {
    exists i :: 0 <= i < |h| && Starts(c, h[i], source, t) && Undisturbed(h, i, source)
  }

  /** From `from` on, each deadline is later than exactly the instants at which the
      history keeps its source boosted. */
  ghost predicate Refines(p: State, h: seq<Event>, from: int) {
    forall source: nat, t :: source < |p.deadlines| && from <= t ==>
      (p.deadlines[source] > t <==> Live(p.cfg, h, source, t))
  }

  lemma UndisturbedAfter(h: seq<Event>, ev: Event, i: nat, source: nat)
    requires i <= |h|
    ensures Undisturbed(h + [ev], i, source) <==>
              && Undisturbed(h, i, source)
              && AllowedAt(h + [ev], |h| + 1)
              && (i < |h| ==> !Cancels(ev, source))
  {
    var g := h + [ev];
    forall k | 0 <= k <= |h| ensures AllowedAt(g, k) == AllowedAt(h, k) {
      assert g[..k] == h[..k];
    }
    assert forall j :: 0 <= j < |h| ==> g[j] == h[j];
    if Undisturbed(g, i, source) {
      forall k | i <= k <= |h| ensures AllowedAt(h, k) { assert AllowedAt(g, k); }
      assert AllowedAt(g, |h| + 1);
      if i < |h| { assert g[|h|] == ev; }
    }
  }

  lemma LiveAfter(c: Config, h: seq<Event>, ev: Event, source: nat, t: int)
    ensures Live(c, h + [ev], source, t) <==>
              && AllowedAt(h + [ev], |h| + 1)
              && ((Live(c, h, source, t) && !Cancels(ev, source))
                  || (Starts(c, ev, source, t) && AllowedAt(h, |h|)))
  {
    var g := h + [ev];
    forall i | 0 <= i <= |h|
      ensures Undisturbed(g, i, source) <==>
                && Undisturbed(h, i, source)
                && AllowedAt(g, |h| + 1)
                && (i < |h| ==> !Cancels(ev, source))
    {
      UndisturbedAfter(h, ev, i, source);
    }
    assert g[|h|] == ev && forall i :: 0 <= i < |h| ==> g[i] == h[i];
    assert Undisturbed(h, |h|, source) == AllowedAt(h, |h|);
    if Live(c, h, source, t) && AllowedAt(g, |h| + 1) && !Cancels(ev, source) {
      var i :| 0 <= i < |h| && Starts(c, h[i], source, t) && Undisturbed(h, i, source);
      assert Starts(c, g[i], source, t) && Undisturbed(g, i, source);
    }
    if Starts(c, ev, source, t) && AllowedAt(h, |h|) && AllowedAt(g, |h| + 1) {
      assert Starts(c, g[|h|], source, t) && Undisturbed(g, |h|, source);
    }
  }

  lemma LiveNeedsAllowed(c: Config, h: seq<Event>, source: nat, t: int)
    ensures Live(c, h, source, t) ==> Allowed(ModesAfter(h))
  {
    AllowedReadsOff(h);
    if Live(c, h, source, t) {
      var i :| 0 <= i < |h| && Starts(c, h[i], source, t) && Undisturbed(h, i, source);
      assert h[..|h|] == h && AllowedAt(h, |h|);
    }
  }

  // ---- the invariant

  /** A sleeping worker has seen the state that is there now. */
  ghost predicate WorkerInv(s: Sys)
    requires Shaped(s.p)
  {
    match s.worker
    case Ready => true
    case WaitUntimed => !Pending(s.p.deadlines) && !Outstanding(s.p)
    case WaitTimed(wake, slept) =>
      && slept <= s.now
      && (forall i :: 0 <= i < SOURCES && s.p.deadlines[i] != NONE ==> wake <= s.p.deadlines[i])
      && (Outstanding(s.p) ==> wake <= slept + RETRY_MS * MS)
      && (!Outstanding(s.p) ==> wake in s.p.deadlines && wake != NONE)
    case Exited => s.p.modes.stopped
  }

  /** Asleep on the condition variable. */
  predicate Waiting(w: Worker) {
    w.WaitUntimed? || w.WaitTimed?
  }

  ghost predicate Inv(s: Sys) {
    && StateInv(s.p)
    && Settled(s.p)
    && 0 <= s.now
    && s.p.modes == ModesAfter(s.history)
    && (forall i :: 0 <= i < SOURCES ==> NONE <= s.p.deadlines[i] <= s.now + MAX_BOOST_MS * MS)
    && Refines(s.p, s.history, s.now)
    && WorkerInv(s)
    && (s.p.modes.stopped ==> !Waiting(s.worker))
  }

  lemma EarliestSpec(ds: seq<int>)
    requires forall i :: 0 <= i < |ds| ==> ds[i] < NEVER
    ensures forall i :: 0 <= i < |ds| && ds[i] != NONE ==> Earliest(ds) <= ds[i]
    ensures if Pending(ds) then Earliest(ds) in ds && Earliest(ds) != NONE else Earliest(ds) == NEVER
    ensures Earliest(ds) <= NEVER
  {
    if ds != [] {
      var init := ds[..|ds| - 1];
      EarliestSpec(init);
      assert forall i :: 0 <= i < |init| ==> ds[i] == init[i];
      assert Pending(init) ==> Pending(ds);
    }
  }

  lemma WaitAfterCorrect(p: State, late: int)
    requires Shaped(p) && late + MAX_BOOST_MS * MS < NEVER
    requires forall i :: 0 <= i < SOURCES ==> p.deadlines[i] < NEVER
    ensures match WaitAfter(p, late)
            case WaitUntimed => !Pending(p.deadlines) && !Outstanding(p)
            case WaitTimed(wake, slept) =>
              && slept == late
              && (forall i :: 0 <= i < SOURCES && p.deadlines[i] != NONE ==> wake <= p.deadlines[i])
              && (Outstanding(p) ==> wake <= slept + RETRY_MS * MS)
              && (!Outstanding(p) ==> wake in p.deadlines && wake != NONE)
            case _ => false
  {
    EarliestSpec(p.deadlines);
  }

  lemma InitInv(s: Sys)
    requires Init(s)
    ensures Inv(s)
  {
    var c, k, l, v :| InitFrom(s, c, k, l, v);
    ApplyBoostKeeps(Blank(c, k, l), v.apply);
    assert s.p.deadlines == [NONE, NONE, NONE];
  }

  /** A pass over the boost state at `now`, after the history grew to `h`: if the
      deadlines it starts from refine the history wherever boosts are allowed, the
      ones it leaves refine it outright. */
  lemma PruneRefines(p: State, e: ApplyEnv, h: seq<Event>)
    requires Shaped(p) && |e.floor| == 2 && 0 <= e.now
    requires p.modes == ModesAfter(h)
    requires Allowed(p.modes) ==> Refines(p, h, e.now)
    ensures Refines(ApplyBoost(p, e), h, e.now)
  {
    forall source: nat, t | source < SOURCES && e.now <= t
      ensures ApplyBoost(p, e).deadlines[source] > t <==> Live(p.cfg, h, source, t)
    {
      LiveNeedsAllowed(p.cfg, h, source, t);
    }
  }

  /** `ev` is a request for `source`: it says so to the history exactly as the
      locked section treats it. */
  ghost predicate IsRequest(c: Config, ev: Event, source: nat, ms: int, defaultMs: int, at: int) {
    && (forall x: nat :: Cancels(ev, x) <==> x == source && ms < 0)
    && (forall x: nat, t :: Starts(c, ev, x, t) <==> x == source && Outlasts(ms, defaultMs, at, t))
    && (ev.BoostCall? || (ev.ModeCall? && ev.mode.Launch?))
  }

  lemma RequestRefinesAt(a: Sys, ev: Event, source: nat, ms: int, defaultMs: int, at: int, x: nat, t: int)
    requires Inv(a) && source < SOURCES && a.now <= at <= t && x < SOURCES
    requires IsRequest(a.p.cfg, ev, source, ms, defaultMs, at)
    requires Allowed(a.p.modes)
    ensures Requested(a.p.deadlines, a.p.modes, source, ms, defaultMs, at)[x] > t
            <==> Live(a.p.cfg, a.history + [ev], x, t)
  {
    var h := a.history;
    assert (h + [ev])[..|h| + 1] == h + [ev] && h[..|h|] == h && (h + [ev])[..|h|] == h;
    AllowedReadsOff(h);
    AllowedReadsOff(h + [ev]);
    if ms >= 0 {
      ClampOutlasts(ms, defaultMs, at, t);
    }
    assert AllowedAt(h + [ev], |h| + 1) && AllowedAt(h, |h|);
    assert a.p.deadlines[x] > t <==> Live(a.p.cfg, h, x, t);
    LiveAfter(a.p.cfg, h, ev, x, t);
  }

  lemma RequestRefines(a: Sys, ev: Event, source: nat, ms: int, defaultMs: int, at: int, from: int)
    requires Inv(a) && source < SOURCES && a.now <= at <= from
    requires IsRequest(a.p.cfg, ev, source, ms, defaultMs, at)
    requires Allowed(a.p.modes)
    ensures Refines(a.p.(deadlines := Requested(a.p.deadlines, a.p.modes, source, ms, defaultMs, at)),
                    a.history + [ev], from)
  {
    forall x: nat, t | x < SOURCES && from <= t
      ensures Requested(a.p.deadlines, a.p.modes, source, ms, defaultMs, at)[x] > t
              <==> Live(a.p.cfg, a.history + [ev], x, t)
    {
      RequestRefinesAt(a, ev, source, ms, defaultMs, at, x, t);
    }
  }

  /** The last pass of a call: `p` is what the call made of the state before it. */
  lemma CallKeeps(a: Sys, p: State, e: ApplyEnv, ev: Event)
    requires Inv(a) && StateInv(p) && EnvOk(p, e) && a.now <= e.now
    requires p.cfg == a.p.cfg && p.modes == ModesAfter(a.history + [ev])
    requires a.p.modes.stopped ==> p.modes.stopped
    requires forall i :: 0 <= i < SOURCES ==> NONE <= p.deadlines[i] <= e.now + MAX_BOOST_MS * MS
    requires Allowed(p.modes) ==> Refines(p, a.history + [ev], e.now)
    ensures Inv(Sys(ApplyBoost(p, e), Notify(a.worker), e.now, a.history + [ev]))
  {
    ApplyBoostKeeps(p, e);
    PruneRefines(p, e, a.history + [ev]);
  }

  /** A request section, which ends with a pass. */
  lemma RequestKeeps(a: Sys, ev: Event, source: nat, ms: int, defaultMs: int, at: int, e: ApplyEnv)
    requires Inv(a) && source < SOURCES && a.now <= at <= e.now && EnvOk(a.p, e)
    requires defaultMs <= MAX_BOOST_MS && 0 <= defaultMs
    requires IsRequest(a.p.cfg, ev, source, ms, defaultMs, at)
    ensures Inv(Sys(RequestBoost(a.p, source, ms, defaultMs, at, e), Notify(a.worker), e.now, a.history + [ev]))
  {
    var p := a.p.(deadlines := Requested(a.p.deadlines, a.p.modes, source, ms, defaultMs, at));
    assert (a.history + [ev])[..|a.history|] == a.history;
    if Allowed(a.p.modes) {
      RequestRefines(a, ev, source, ms, defaultMs, at, e.now);
    }
    CallKeeps(a, p, e, ev);
  }

  /** A call that changes modes but no deadline. */
  lemma ModeKeeps(a: Sys, p: State, e: ApplyEnv, ev: Event)
    requires Inv(a) && StateInv(p) && EnvOk(p, e) && a.now <= e.now
    requires p.cfg == a.p.cfg && p.deadlines == a.p.deadlines && p.modes == ModesAfter(a.history + [ev])
    requires a.p.modes.stopped ==> p.modes.stopped
    requires ev.ModeCall? && !ev.mode.Launch?
    ensures Inv(Sys(ApplyBoost(p, e), Notify(a.worker), e.now, a.history + [ev]))
  {
    var g := a.history + [ev];
    assert g[..|a.history| + 1] == g;
    AllowedReadsOff(g);
    if Allowed(p.modes) {
      forall x: nat, t | x < SOURCES && e.now <= t
        ensures p.deadlines[x] > t <==> Live(p.cfg, g, x, t)
      {
        LiveAfter(p.cfg, a.history, ev, x, t);
        assert p.deadlines[x] > t <==> Live(p.cfg, a.history, x, t);
      }
    }
    CallKeeps(a, p, e, ev);
  }

  /** What a mode call does to the modes is what the history says of it. */
  lemma SwitchModeModes(p: State, mode: Mode, enabled: bool, v: ModeEnv, h: seq<Event>, at: int)
    requires Shaped(p) && |v.launch.floor| == 2 && p.modes == ModesAfter(h)
    ensures SwitchMode(p, mode, enabled, v).modes == ModesAfter(h + [ModeCall(mode, enabled, at)])
    ensures SwitchMode(p, mode, enabled, v).modes.stopped == p.modes.stopped
    ensures SwitchMode(p, mode, enabled, v).cfg == p.cfg
    ensures !mode.Launch? ==> SwitchMode(p, mode, enabled, v).deadlines == p.deadlines
  {
    var g := h + [ModeCall(mode, enabled, at)];
    assert g[..|g| - 1] == h;
  }

  lemma LaunchKeeps(a: Sys, enabled: bool, v: ModeEnv)
    requires Inv(a) && a.now <= v.at && ModeEnvOk(a.p, Launch, enabled, v)
    ensures Inv(Sys(SetMode(a.p, Launch, enabled, v), Notify(a.worker), v.apply.now,
                    a.history + [ModeCall(Launch, enabled, v.at)]))
  {
    var ev := ModeCall(Launch, enabled, v.at);
    var ms := if enabled then a.p.cfg.launchMs else -1;
    RequestKeeps(a, ev, 2, ms, a.p.cfg.launchMs, v.at, v.launch);
    var mid := Sys(SwitchMode(a.p, Launch, enabled, v), Notify(a.worker), v.launch.now, a.history + [ev]);
    PassKeeps(mid, v.apply);
  }

  /** A pass with no call, at a later instant. */
  lemma PassKeeps(a: Sys, e: ApplyEnv)
    requires Inv(a) && (a.worker.Ready? || a.worker.Exited?) && a.now <= e.now && EnvOk(a.p, e)
    ensures Inv(Sys(ApplyBoost(a.p, e), a.worker, e.now, a.history))
  {
    ApplyBoostKeeps(a.p, e);
    PruneRefines(a.p, e, a.history);
  }

  lemma SetModeKeeps(a: Sys, mode: Mode, enabled: bool, v: ModeEnv)
    requires Inv(a) && a.now <= v.at && ModeEnvOk(a.p, mode, enabled, v)
    ensures Inv(Sys(SetMode(a.p, mode, enabled, v), Notify(a.worker), v.apply.now,
                    a.history + [ModeCall(mode, enabled, v.at)]))
  {
    if mode.Launch? {
      LaunchKeeps(a, enabled, v);
    } else {
      SwitchModeKeeps(a.p, mode, enabled, v);
      SwitchModeModes(a.p, mode, enabled, v, a.history, v.at);
      ModeKeeps(a, SwitchMode(a.p, mode, enabled, v), v.apply, ModeCall(mode, enabled, v.at));
    }
  }

  lemma SetBoostKeeps(a: Sys, boost: Boost, ms: int, at: int, e: ApplyEnv)
    requires Inv(a) && a.now <= at <= e.now && EnvOk(a.p, e)
    ensures var w := if boost.OtherBoost? then a.worker else Notify(a.worker);
            Inv(Sys(SetBoost(a.p, boost, ms, at, e), w, e.now, a.history + [BoostCall(boost, ms, at)]))
  {
    var ev := BoostCall(boost, ms, at);
    var g := a.history + [ev];
    match boost {
      case Interaction => RequestKeeps(a, ev, 0, ms, a.p.cfg.interactionMs, at, e);
      case DisplayUpdateImminent => RequestKeeps(a, ev, 1, ms, a.p.cfg.displayMs, at, e);
      case OtherBoost =>
        assert g[..|g| - 1] == a.history && g[..|g|] == g && a.history[..|a.history|] == a.history;
        AllowedReadsOff(a.history);
        AllowedReadsOff(g);
        var b := Sys(a.p, a.worker, e.now, g);
        forall x: nat, t | x < SOURCES && b.now <= t
          ensures b.p.deadlines[x] > t <==> Live(b.p.cfg, b.history, x, t)
        {
          LiveAfter(a.p.cfg, a.history, ev, x, t);
          LiveNeedsAllowed(a.p.cfg, a.history, x, t);
          assert a.p.deadlines[x] > t <==> Live(a.p.cfg, a.history, x, t);
        }
    }
  }

  lemma DestroyKeeps(a: Sys, e: ApplyEnv)
    requires Inv(a) && a.now <= e.now && EnvOk(a.p, e)
    ensures Inv(Sys(Destroy(a.p, e), Notify(a.worker), e.now, a.history + [Destroyed]))
  {
    var g := a.history + [Destroyed];
    assert g[..|g| - 1] == a.history;
    CallKeeps(a, a.p.(modes := a.p.modes.(stopped := true), deadlines := [NONE, NONE, NONE]), e, Destroyed);
  }

  lemma WorkerKeeps(a: Sys, e: ApplyEnv, late: int)
    requires Inv(a) && a.now <= e.now <= late && EnvOk(a.p, e) && late + MAX_BOOST_MS * MS < NEVER
    requires !a.p.modes.stopped
    ensures var p := ApplyBoost(a.p, e);
            Inv(Sys(p, WaitAfter(p, late), late, a.history))
  {
    var p := ApplyBoost(a.p, e);
    ApplyBoostKeeps(a.p, e);
    PruneRefines(a.p, e, a.history);
    WaitAfterCorrect(p, late);
  }

  lemma NextInv(a: Sys, b: Sys, step: Step)
    requires Inv(a) && Next(a, b, step)
    ensures Inv(b)
  {
    match step {
      case CallSetMode(mode, enabled, v) => SetModeKeeps(a, mode, enabled, v);
      case CallSetBoost(boost, ms, at, e) => SetBoostKeeps(a, boost, ms, at, e);
      case CallDestructor(e) => DestroyKeeps(a, e);
      case WorkerPass(e, late) => WorkerKeeps(a, e, late);
      case WorkerStops =>
      case WorkerWakes =>
      case ClockAdvances(to) =>
    }
  }

  lemma {:induction false} RunInv(run: seq<Sys>, steps: seq<Step>, i: nat)
    requires IsRun(run, steps) && i < |run|
    ensures Inv(run[i])
  {
    if i == 0 {
      InitInv(run[0]);
    } else {
      RunInv(run, steps, i - 1);
      assert StepAt(run, steps, i - 1);
      NextInv(run[i - 1], run[i], steps[i - 1]);
    }
  }

  // ---- the theorems

  /** No lost wake-up: a worker that sleeps without a time-out has nothing left to
      do, in the kernel as well as in the HAL's own fields; one that sleeps with a
      time-out wakes before any deadline passes and soon enough to retry. */
  lemma NoLostWakeup(run: seq<Sys>, steps: seq<Step>, i: nat)
    requires IsRun(run, steps) && i < |run|
    ensures var s := run[i];
            && |s.p.deadlines| == SOURCES
            && (s.worker.WaitUntimed? ==>
                  && s.p.deadlines == [NONE, NONE, NONE]
                  && s.p.kernel.topAppNode == s.p.cfg.base
                  && s.p.kernel.foregroundNode == s.p.cfg.foreground
                  && s.p.kernel.floors == map[])
            && (s.worker.WaitTimed? ==>
                  && s.worker.slept <= s.now
                  && (forall j :: 0 <= j < SOURCES && s.p.deadlines[j] != NONE ==> s.worker.wake <= s.p.deadlines[j])
                  && (Outstanding(s.p) ==> s.worker.wake <= s.worker.slept + RETRY_MS * MS))
            && (s.worker.Exited? ==> s.p.modes.stopped)
  {
    RunInv(run, steps, i);
    var p := run[i].p;
    if !Pending(p.deadlines) {
      assert p.deadlines[0] == NONE && p.deadlines[1] == NONE && p.deadlines[2] == NONE;
    }
  }

  /** The descriptors in the array are exactly the floor requests open in the
      kernel; both clusters are held or neither, and only for a pending boost in a
      mode that allows one. */
  lemma FloorConservation(run: seq<Sys>, steps: seq<Step>, i: nat)
    requires IsRun(run, steps) && i < |run|
    ensures var p := run[i].p;
            && BothOrNeither(p.fds)
            && p.kernel.floors == (if p.fds == [-1, -1] then map[] else map[p.fds[0] := 0, p.fds[1] := 1])
            && (p.kernel.floors != map[] ==> Allowed(p.modes) && Pending(p.deadlines))
  {
    RunInv(run, steps, i);
  }

  lemma StoppedStays(a: Sys, b: Sys, step: Step)
    requires Next(a, b, step)
    ensures a.p.modes.stopped || step.CallDestructor? ==> b.p.modes.stopped
  {
    match step {
      case CallSetMode(mode, enabled, v) =>
        assert b.p.modes == SwitchMode(a.p, mode, enabled, v).modes == Switched(a.p.modes, mode, enabled);
      case CallSetBoost(boost, ms, at, e) => assert b.p.modes == a.p.modes;
      case CallDestructor(e) => assert b.p.modes == a.p.modes.(stopped := true);
      case WorkerPass(e, late) => assert b.p.modes == a.p.modes;
      case WorkerStops =>
      case WorkerWakes =>
      case ClockAdvances(to) =>
    }
  }

  lemma {:induction false} StoppedFrom(run: seq<Sys>, steps: seq<Step>, i: nat, j: nat)
    requires IsRun(run, steps) && i < j < |run| && steps[i].CallDestructor?
    ensures run[j].p.modes.stopped
    decreases j
  {
    if j > i + 1 {
      StoppedFrom(run, steps, i, j - 1);
    }
    assert StepAt(run, steps, j - 1);
    StoppedStays(run[j - 1], run[j], steps[j - 1]);
  }

  lemma StoppedIsQuiet(s: Sys)
    requires Inv(s) && s.p.modes.stopped
    ensures s.p.kernel.floors == map[] && !Pending(s.p.deadlines)
  {
  }

  /** Once the destructor's section ran, no floor is held again and no deadline set,
      and the worker never sleeps: it has exited or does so when it next gets the lock,
      so the destructor's join returns. */
  lemma NothingAfterDestructor(run: seq<Sys>, steps: seq<Step>, i: nat, j: nat)
    requires IsRun(run, steps) && i < j < |run| && steps[i].CallDestructor?
    ensures run[j].p.modes.stopped && run[j].p.kernel.floors == map[] && !Pending(run[j].p.deadlines)
    ensures run[j].worker == Exited
            || (run[j].worker == Ready && Next(run[j], run[j].(worker := Exited), WorkerStops))
  {
    assert StepAt(run, steps, j - 1);
    StoppedFrom(run, steps, i, j);
    RunInv(run, steps, j);
    StoppedIsQuiet(run[j]);
  }

  /** The three deadlines say of every source, now and later, what the whole call
      history says: it is boosted at `t` exactly when some accepted request still
      lasts at `t` and since then nobody cancelled it and no mode forbade it. */
  lemma TimersRefineHistory(run: seq<Sys>, steps: seq<Step>, i: nat)
    requires IsRun(run, steps) && i < |run|
    ensures var s := run[i];
            && |s.p.deadlines| == SOURCES
            && s.p.modes == ModesAfter(s.history)
            && forall x: nat, t :: x < SOURCES && s.now <= t ==>
                 (s.p.deadlines[x] > t <==> Live(s.p.cfg, s.history, x, t))
  {
    RunInv(run, steps, i);
  }

  /** The clock reading of the last pass in a step, if the step makes one. */
  function PassAt(step: Step): int {
    match step
    case CallSetMode(_, _, v) => v.apply.now
    case CallSetBoost(_, _, _, e) => e.now
    case CallDestructor(e) => e.now
    case WorkerPass(e, _) => e.now
    case _ => -1
  }

  predicate MakesPass(step: Step) {
    match step
    case CallSetMode(_, _, _) => true
    case CallSetBoost(boost, _, _, _) => !boost.OtherBoost?
    case CallDestructor(_) => true
    case WorkerPass(_, _) => true
    case _ => false
  }

  ghost predicate AnyLive(c: Config, h: seq<Event>, t: int) {
    exists x: nat :: x < SOURCES && Live(c, h, x, t)
  }

  /** At every pass the boost is wanted exactly when the history keeps some source
      boosted at that instant, and what is held or written agrees with it. */
  lemma BoostActiveIffRequested(run: seq<Sys>, steps: seq<Step>, i: nat)
    requires IsRun(run, steps) && i < |steps| && MakesPass(steps[i])
    ensures var s := run[i + 1];
            var live := AnyLive(s.p.cfg, s.history, PassAt(steps[i]));
            && (Pending(s.p.deadlines) <==> live)
            && (s.p.kernel.floors != map[] ==> live)
            && (!Outstanding(s.p) ==>
                  && s.p.kernel.topAppNode == (if live then s.p.cfg.active else s.p.cfg.base)
                  && (live ==> |s.p.kernel.floors| == 2))
  {
    PassInRun(run, steps, i);
    PassDecides(run[i + 1], PassAt(steps[i]));
  }

  lemma PassInRun(run: seq<Sys>, steps: seq<Step>, i: nat)
    requires IsRun(run, steps) && i < |steps| && MakesPass(steps[i])
    ensures Inv(run[i + 1]) && 0 <= PassAt(steps[i])
    ensures OnlyFuture(run[i + 1].p.deadlines, PassAt(steps[i]))
    ensures Refines(run[i + 1].p, run[i + 1].history, PassAt(steps[i]))
  {
    RunInv(run, steps, i);
    RunInv(run, steps, i + 1);
    assert StepAt(run, steps, i);
    PassOnlyFuture(run[i], run[i + 1], steps[i]);
    PassRefines(run[i], run[i + 1], steps[i]);
  }

  lemma PassDecides(s: Sys, t: int)
    requires Inv(s) && 0 <= t && OnlyFuture(s.p.deadlines, t) && Refines(s.p, s.history, t)
    ensures var live := AnyLive(s.p.cfg, s.history, t);
            && (Pending(s.p.deadlines) <==> live)
            && (s.p.kernel.floors != map[] ==> live)
            && (!Outstanding(s.p) ==>
                  && s.p.kernel.topAppNode == (if live then s.p.cfg.active else s.p.cfg.base)
                  && (live ==> |s.p.kernel.floors| == 2))
  {
    assert forall x: nat :: x < SOURCES ==> (s.p.deadlines[x] != NONE <==> Live(s.p.cfg, s.history, x, t));
    assert Pending(s.p.deadlines) <==> AnyLive(s.p.cfg, s.history, t);
    AppliedAgrees(s.p);
  }

  lemma AppliedAgrees(p: State)
    requires StateInv(p) && Settled(p)
    ensures p.kernel.floors != map[] ==> Pending(p.deadlines)
    ensures !Outstanding(p) ==> p.kernel.topAppNode == BoostValue(p.cfg, p.deadlines)
    ensures !Outstanding(p) && Pending(p.deadlines) ==> |p.kernel.floors| == 2
  {
    if FloorHeld(p.fds) {
      assert p.kernel.floors == map[p.fds[0] := 0, p.fds[1] := 1];
      assert p.kernel.floors.Keys == {p.fds[0], p.fds[1]};
    }
  }

  /** A pass leaves no deadline that passed. */
  ghost predicate OnlyFuture(ds: seq<int>, now: int) {
    forall x :: 0 <= x < |ds| ==> ds[x] == NONE || ds[x] > now
  }

  lemma PassOnlyFuture(a: Sys, s: Sys, step: Step)
    requires Next(a, s, step) && MakesPass(step)
    ensures OnlyFuture(s.p.deadlines, PassAt(step))
  {
    match step {
      case CallSetMode(mode, enabled, v) =>
        assert s.p.deadlines == Prune(SwitchMode(a.p, mode, enabled, v).deadlines, Allowed(s.p.modes), v.apply.now);
      case CallSetBoost(boost, ms, at, e) =>
      case CallDestructor(e) =>
      case WorkerPass(e, late) =>
    }
  }

  lemma PassRefines(a: Sys, s: Sys, step: Step)
    requires Inv(a) && Inv(s) && Next(a, s, step) && MakesPass(step)
    ensures 0 <= PassAt(step) && Refines(s.p, s.history, PassAt(step))
  {
    if step.WorkerPass? {
      PruneRefines(a.p, step.e, a.history);
    } else {
      assert s.now == PassAt(step);
    }
  }

  /** While the calls made so far forbid boosts, no deadline is pending and no floor held. */
  lemma ForbiddenIsQuiet(run: seq<Sys>, steps: seq<Step>, i: nat)
    requires IsRun(run, steps) && i < |run|
    requires var h := run[i].history;
             || !Last(h, Interactive, true) || Last(h, DisplayInactive, false)
             || Last(h, LowPower, false) || Last(h, SustainedPerformance, false) || Destroyed in h
    ensures run[i].p.deadlines == [NONE, NONE, NONE] && run[i].p.kernel.floors == map[]
  {
    RunInv(run, steps, i);
    AllowedReadsOff(run[i].history);
    QuietState(run[i].p);
  }

  lemma QuietState(p: State)
    requires StateInv(p) && Settled(p) && !Allowed(p.modes)
    ensures p.deadlines == [NONE, NONE, NONE] && p.kernel.floors == map[]
  {
    assert forall x :: 0 <= x < SOURCES ==> p.deadlines[x] == NONE;
  }

  /** What one call does to one timer, exactly: from its instant on the source is boosted
      if boosts are allowed after the call and it was boosted and the call does not cancel
      it, or the call asks for it in modes that take requests. */
  lemma CallExact(run: seq<Sys>, steps: seq<Step>, i: nat, ev: Event, source: nat, t: int)
    requires IsRun(run, steps) && i < |steps| && source < SOURCES
    requires run[i + 1].history == run[i].history + [ev] && run[i].now <= t && run[i + 1].now <= t
    ensures |run[i].p.deadlines| == |run[i + 1].p.deadlines| == SOURCES
    ensures run[i + 1].p.deadlines[source] > t <==>
              && BoostsAllowed(run[i].history + [ev])
              && ((run[i].p.deadlines[source] > t && !Cancels(ev, source))
                  || (Starts(run[i + 1].p.cfg, ev, source, t) && BoostsAllowed(run[i].history)))
  {
    TimersRefineHistory(run, steps, i);
    TimersRefineHistory(run, steps, i + 1);
    SameConfig(run, steps, i);
    var h := run[i].history;
    LiveAfter(run[i].p.cfg, h, ev, source, t);
    assert (h + [ev])[..|h| + 1] == h + [ev] && h[..|h|] == h;
  }

  lemma SameConfig(run: seq<Sys>, steps: seq<Step>, i: nat)
    requires IsRun(run, steps) && i < |steps|
    ensures run[i + 1].p.cfg == run[i].p.cfg
  {
    assert StepAt(run, steps, i);
    ConfigStays(run[i], run[i + 1], steps[i]);
  }

  lemma ConfigStays(a: Sys, b: Sys, step: Step)
    requires Next(a, b, step)
    ensures b.p.cfg == a.p.cfg
  {
    match step {
      case CallSetMode(mode, enabled, v) => assert b.p.cfg == SwitchMode(a.p, mode, enabled, v).cfg == a.p.cfg;
      case CallSetBoost(boost, ms, at, e) => assert b.p.cfg == a.p.cfg;
      case CallDestructor(e) => assert b.p.cfg == a.p.cfg;
      case WorkerPass(e, late) => assert b.p.cfg == a.p.cfg;
      case WorkerStops =>
      case WorkerWakes =>
      case ClockAdvances(to) =>
    }
  }

  /** An interaction request in modes that allow it, still lasting when it is applied,
      leaves the deadline that was asked for, or the later one that was there. */
  lemma InteractionTakesHold(run: seq<Sys>, steps: seq<Step>, i: nat, ms: int, at: int, e: ApplyEnv, t: int)
    requires IsRun(run, steps) && i < |steps| && steps[i] == CallSetBoost(Interaction, ms, at, e)
    requires ms >= 0 && BoostsAllowed(run[i].history) && e.now <= t
    ensures |run[i].p.deadlines| == |run[i + 1].p.deadlines| == SOURCES
    ensures run[i + 1].p.deadlines[0] > t <==>
              run[i].p.deadlines[0] > t || Outlasts(ms, run[i + 1].p.cfg.interactionMs, at, t)
  {
    assert StepAt(run, steps, i);
    var ev := BoostCall(Interaction, ms, at);
    RequestStays(run[i].history, ev);
    CallExact(run, steps, i, ev, 0, t);
  }

  /** A boost call does not change what the modes allow. */
  lemma RequestStays(h: seq<Event>, ev: Event)
    requires ev.BoostCall?
    ensures BoostsAllowed(h + [ev]) <==> BoostsAllowed(h)
  {
    assert (h + [ev])[..|h|] == h;
  }

  /** No boost outlasts two seconds from now, whatever was asked for. */
  lemma BoundedBoost(run: seq<Sys>, steps: seq<Step>, i: nat)
    requires IsRun(run, steps) && i < |run|
    ensures |run[i].p.deadlines| == SOURCES
    ensures forall j :: 0 <= j < SOURCES ==> run[i].p.deadlines[j] <= run[i].now + MAX_BOOST_MS * MS
  {
    RunInv(run, steps, i);
  }

  // ---- the GPU limits

  /** The floor node holds what the modes ask for. */
  ghost predicate FloorFollows(p: State) {
    p.limits.gpuMinNode == GpuFloorFor(p.modes)
  }

  ghost predicate CeilingFollows(p: State) {
    p.limits.gpuMaxNode == GpuCeilingFor(p.modes)
  }

  /** What the calls made so far ask of the GPU nodes and of the hotplug profile. */
  lemma LimitsAsked(run: seq<Sys>, steps: seq<Step>, i: nat)
    requires IsRun(run, steps) && i < |run|
    ensures var h, p := run[i].history, run[i].p;
            && GpuFloorFor(p.modes) == (if Last(h, Interactive, true) && !Last(h, DisplayInactive, false)
                                           && Last(h, ExpensiveRendering, false) then 420 else 0)
            && GpuCeilingFor(p.modes) == (if Last(h, LowPower, false) || Last(h, SustainedPerformance, false)
                                          then 544 else 0)
            && (p.limits.profileApplied ==> p.limits.profileNode == if Last(h, LowPower, false) then 2 else 0)
  {
    RunInv(run, steps, i);
    ModesReadOff(run[i].history);
  }

  /** The step comes to the floor ... */
  predicate AtFloor(a: Sys, step: Step) {
    step.CallSetMode? && TriesFloor(a.p.limits, a.p.modes, step.mode, step.enabled)
  }

  predicate AtCeiling(a: Sys, step: Step) {
    step.CallSetMode? && TriesCeiling(a.p.limits, a.p.modes, step.mode, step.enabled)
  }

  /** ... and its write works, or fails. */
  predicate SetsFloor(a: Sys, step: Step) {
    AtFloor(a, step) && step.v.gpuFloorOk
  }

  predicate SetsCeiling(a: Sys, step: Step) {
    AtCeiling(a, step) && step.v.gpuCeilingOk
  }

  predicate MissesFloor(a: Sys, step: Step) {
    AtFloor(a, step) && !step.v.gpuFloorOk
  }

  predicate MissesCeiling(a: Sys, step: Step) {
    AtCeiling(a, step) && !step.v.gpuCeilingOk
  }

  lemma ConstructorLimits(s: Sys, c: Config, k: Kernel, l: Limits, v: ModeEnv)
    requires InitFrom(s, c, k, l, v)
    ensures s.p.limits.gpuMinNode == (if v.gpuFloorOk then GpuFloorFor(s.p.modes) else l.gpuMinNode)
    ensures s.p.limits.gpuMaxNode == (if v.gpuCeilingOk then GpuCeilingFor(s.p.modes) else l.gpuMaxNode)
  {
  }

  /** No step but a mode call writes a limit or changes what the modes ask for: the
      worker never retries a GPU write. */
  lemma OnlyModeCallsTouchLimits(a: Sys, b: Sys, step: Step)
    requires Next(a, b, step) && !step.CallSetMode?
    ensures b.p.limits == a.p.limits
    ensures GpuFloorFor(b.p.modes) == GpuFloorFor(a.p.modes) && GpuCeilingFor(b.p.modes) == GpuCeilingFor(a.p.modes)
  {
    match step {
      case CallSetBoost(boost, ms, at, e) => assert b.p.limits == a.p.limits && b.p.modes == a.p.modes;
      case CallDestructor(e) => assert b.p.limits == a.p.limits && b.p.modes == a.p.modes.(stopped := true);
      case WorkerPass(e, late) => assert b.p.limits == a.p.limits && b.p.modes == a.p.modes;
      case WorkerStops =>
      case WorkerWakes =>
      case ClockAdvances(to) =>
    }
  }

  lemma ModeCallLimits(a: Sys, b: Sys, step: Step)
    requires Next(a, b, step) && step.CallSetMode?
    ensures b.p.limits == LimitsAfter(a.p.limits, a.p.modes, step.mode, step.enabled, step.v)
    ensures b.p.modes == Switched(a.p.modes, step.mode, step.enabled)
  {
    var mid := SwitchMode(a.p, step.mode, step.enabled, step.v);
    assert b.p == ApplyBoost(mid, step.v.apply);
    assert b.p.limits == mid.limits && b.p.modes == mid.modes;
  }

  /** What one step does to the floor: it sets the node, or leaves it; and what the modes
      ask for changes only in a step that comes to the floor. */
  lemma FloorStep(a: Sys, b: Sys, step: Step)
    requires Inv(a) && Next(a, b, step)
    ensures b.p.limits.gpuMinNode == if SetsFloor(a, step) then GpuFloorFor(b.p.modes) else a.p.limits.gpuMinNode
    ensures !AtFloor(a, step) ==> GpuFloorFor(b.p.modes) == GpuFloorFor(a.p.modes)
  {
    if step.CallSetMode? {
      ModeCallLimits(a, b, step);
      FloorFollowsIff(a.p.limits, a.p.modes, step.mode, step.enabled, step.v);
    } else {
      OnlyModeCallsTouchLimits(a, b, step);
    }
  }

  lemma CeilingStep(a: Sys, b: Sys, step: Step)
    requires Inv(a) && Next(a, b, step)
    ensures b.p.limits.gpuMaxNode == if SetsCeiling(a, step) then GpuCeilingFor(b.p.modes) else a.p.limits.gpuMaxNode
    ensures !AtCeiling(a, step) ==> GpuCeilingFor(b.p.modes) == GpuCeilingFor(a.p.modes)
  {
    if step.CallSetMode? {
      ModeCallLimits(a, b, step);
      CeilingFollowsIff(a.p.limits, a.p.modes, step.mode, step.enabled, step.v);
    } else {
      OnlyModeCallsTouchLimits(a, b, step);
    }
  }

  /** The same along a run. */
  lemma FloorAt(run: seq<Sys>, steps: seq<Step>, i: nat, a: Sys, b: Sys, step: Step)
    requires IsRun(run, steps) && i < |steps| && a == run[i] && b == run[i + 1] && step == steps[i]
    ensures b.p.limits.gpuMinNode == if SetsFloor(a, step) then GpuFloorFor(b.p.modes) else a.p.limits.gpuMinNode
    ensures !AtFloor(a, step) ==> GpuFloorFor(b.p.modes) == GpuFloorFor(a.p.modes)
    ensures FloorFollows(a.p) && !MissesFloor(a, step) ==> FloorFollows(b.p)
  {
    RunInv(run, steps, i);
    assert StepAt(run, steps, i);
    FloorStep(a, b, step);
  }

  lemma CeilingAt(run: seq<Sys>, steps: seq<Step>, i: nat, a: Sys, b: Sys, step: Step)
    requires IsRun(run, steps) && i < |steps| && a == run[i] && b == run[i + 1] && step == steps[i]
    ensures b.p.limits.gpuMaxNode == if SetsCeiling(a, step) then GpuCeilingFor(b.p.modes) else a.p.limits.gpuMaxNode
    ensures !AtCeiling(a, step) ==> GpuCeilingFor(b.p.modes) == GpuCeilingFor(a.p.modes)
    ensures CeilingFollows(a.p) && !MissesCeiling(a, step) ==> CeilingFollows(b.p)
  {
    RunInv(run, steps, i);
    assert StepAt(run, steps, i);
    CeilingStep(a, b, step);
  }

  /** What the last step that set the floor asked for, `first` if none did: read off the
      calls and the outcomes of their writes. */
  ghost function FloorSet(run: seq<Sys>, steps: seq<Step>, i: nat, first: int): int
    requires i < |run| && i <= |steps|
  {
    if i == 0 then first
    else if SetsFloor(run[i - 1], steps[i - 1]) then GpuFloorFor(run[i].p.modes)
    else FloorSet(run, steps, i - 1, first)
  }

  ghost function CeilingSet(run: seq<Sys>, steps: seq<Step>, i: nat, first: int): int
    requires i < |run| && i <= |steps|
  {
    if i == 0 then first
    else if SetsCeiling(run[i - 1], steps[i - 1]) then GpuCeilingFor(run[i].p.modes)
    else CeilingSet(run, steps, i - 1, first)
  }

  /** Exactly when the floor node holds what the modes ask for, in every reachable state:
      when the last call that came to it with a working write asked for the same. */
  lemma {:induction false} FloorExact(run: seq<Sys>, steps: seq<Step>, i: nat)
    requires IsRun(run, steps) && i < |run|
    ensures var set_ := FloorSet(run, steps, i, run[0].p.limits.gpuMinNode);
            && run[i].p.limits.gpuMinNode == set_
            && (FloorFollows(run[i].p) <==> set_ == GpuFloorFor(run[i].p.modes))
  {
    if i > 0 {
      FloorExact(run, steps, i - 1);
      FloorAt(run, steps, i - 1, run[i - 1], run[i], steps[i - 1]);
    }
  }

  lemma {:induction false} CeilingExact(run: seq<Sys>, steps: seq<Step>, i: nat)
    requires IsRun(run, steps) && i < |run|
    ensures var set_ := CeilingSet(run, steps, i, run[0].p.limits.gpuMaxNode);
            && run[i].p.limits.gpuMaxNode == set_
            && (CeilingFollows(run[i].p) <==> set_ == GpuCeilingFor(run[i].p.modes))
  {
    if i > 0 {
      CeilingExact(run, steps, i - 1);
      CeilingAt(run, steps, i - 1, run[i - 1], run[i], steps[i - 1]);
    }
  }

  /** From a state in which the floor follows the modes, and through GPU writes that all
      work, it goes on following them. */
  lemma {:induction false} FloorGoesOn(run: seq<Sys>, steps: seq<Step>, from: nat, i: nat)
    requires IsRun(run, steps) && from <= i < |run| && FloorFollows(run[from].p)
    requires forall k :: from <= k < i ==> !MissesFloor(run[k], steps[k])
    ensures FloorFollows(run[i].p)
  {
    if from < i {
      FloorGoesOn(run, steps, from, i - 1);
      FloorAt(run, steps, i - 1, run[i - 1], run[i], steps[i - 1]);
    }
  }

  lemma {:induction false} CeilingGoesOn(run: seq<Sys>, steps: seq<Step>, from: nat, i: nat)
    requires IsRun(run, steps) && from <= i < |run| && CeilingFollows(run[from].p)
    requires forall k :: from <= k < i ==> !MissesCeiling(run[k], steps[k])
    ensures CeilingFollows(run[i].p)
  {
    if from < i {
      CeilingGoesOn(run, steps, from, i - 1);
      CeilingAt(run, steps, i - 1, run[i - 1], run[i], steps[i - 1]);
    }
  }

  /** A floor that a failed write left behind stays behind until a call comes to it again:
      not the worker, and not a launch, an unknown mode, a sustained-performance call or
      a low-power call that changes nothing. */
  lemma {:induction false} FloorStaleUntilTried(run: seq<Sys>, steps: seq<Step>, from: nat, i: nat)
    requires IsRun(run, steps) && from <= i < |run|
    requires forall k :: from <= k < i ==> !AtFloor(run[k], steps[k])
    ensures run[i].p.limits.gpuMinNode == run[from].p.limits.gpuMinNode
    ensures FloorFollows(run[i].p) <==> FloorFollows(run[from].p)
  {
    if from < i {
      FloorStaleUntilTried(run, steps, from, i - 1);
      FloorAt(run, steps, i - 1, run[i - 1], run[i], steps[i - 1]);
    }
  }

  lemma {:induction false} CeilingStaleUntilTried(run: seq<Sys>, steps: seq<Step>, from: nat, i: nat)
    requires IsRun(run, steps) && from <= i < |run|
    requires forall k :: from <= k < i ==> !AtCeiling(run[k], steps[k])
    ensures run[i].p.limits.gpuMaxNode == run[from].p.limits.gpuMaxNode
    ensures CeilingFollows(run[i].p) <==> CeilingFollows(run[from].p)
  {
    if from < i {
      CeilingStaleUntilTried(run, steps, from, i - 1);
      CeilingAt(run, steps, i - 1, run[i - 1], run[i], steps[i - 1]);
    }
  }

  // A run in which the floor stays behind.

  const NO_OPENS := ApplyEnv(true, 0, [OpenFails, OpenFails], true)
  const ALL_OK := ModeEnv(true, true, true, 0, NO_OPENS, NO_OPENS)

  function After(s: Sys, mode: Mode, on: bool, v: ModeEnv): Sys
    requires Shaped(s.p) && |v.launch.floor| == 2 && |v.apply.floor| == 2
  {
    Sys(SetMode(s.p, mode, on, v), Notify(s.worker), v.apply.now, s.history + [ModeCall(mode, on, v.at)])
  }

  lemma BlankStart(k: Kernel, l: Limits) returns (s: Sys)
    requires k.floors == map[]
    ensures Init(s) && s.worker == Ready && s.now == 0 && s.p.modes == INITIAL_MODES
    ensures FloorFollows(s.p) && CeilingFollows(s.p)
  {
    var p := ApplyBoost(Blank(DEFAULTS, k, l), NO_OPENS);
    s := Sys(p.(limits := ApplyPowerProfile(p.limits, p.modes, ALL_OK)), Ready, 0, []);
    assert InitFrom(s, DEFAULTS, k, l, ALL_OK);
    ConstructorLimits(s, DEFAULTS, k, l, ALL_OK);
  }

  lemma CallNext(s: Sys, mode: Mode, v: ModeEnv)
    requires Inv(s) && s.now == 0 && v == ALL_OK.(gpuFloorOk := v.gpuFloorOk) && !mode.Launch?
    ensures Next(s, After(s, mode, true, v), CallSetMode(mode, true, v))
  {
    assert EnvOk(s.p, v.launch);
    assert EnvOk(SwitchMode(s.p, mode, true, v), v.apply);
  }

  lemma CallThen(s: Sys, mode: Mode, v: ModeEnv) returns (after: Sys)
    requires Inv(s) && s.now == 0 && s.worker == Ready && !s.p.modes.stopped
    requires v == ALL_OK.(gpuFloorOk := v.gpuFloorOk) && !mode.Launch?
    ensures Next(s, after, CallSetMode(mode, true, v)) && Inv(after)
    ensures after.now == 0 && after.worker == Ready && !after.p.modes.stopped
    ensures after.p.limits == LimitsAfter(s.p.limits, s.p.modes, mode, true, v)
    ensures after.p.modes == Switched(s.p.modes, mode, true)
  {
    after := After(s, mode, true, v);
    CallNext(s, mode, v);
    NextInv(s, after, CallSetMode(mode, true, v));
    ModeCallLimits(s, after, CallSetMode(mode, true, v));
  }

  lemma PassThen(s: Sys) returns (after: Sys)
    requires Inv(s) && s.now == 0 && s.worker == Ready && !s.p.modes.stopped
    ensures Next(s, after, WorkerPass(NO_OPENS, 0))
    ensures after.p.limits == s.p.limits && after.p.modes == s.p.modes
  {
    var p := ApplyBoost(s.p, NO_OPENS);
    after := Sys(p, WaitAfter(p, 0), 0, s.history);
  }

  lemma ThreeSteps(run: seq<Sys>, steps: seq<Step>)
    requires |run| == 4 && |steps| == 3 && Init(run[0])
    requires Next(run[0], run[1], steps[0]) && Next(run[1], run[2], steps[1]) && Next(run[2], run[3], steps[2])
    ensures IsRun(run, steps)
  {
    assert StepAt(run, steps, 0) && StepAt(run, steps, 1) && StepAt(run, steps, 2);
  }

  /** Both limits follow the modes, rendering is switched on and the floor's write fails;
      then an unknown mode is switched on and the worker passes, and everything they do
      works.  The floor stays behind all the same. */
  lemma FloorLeftBehind(k: Kernel, l: Limits) returns (run: seq<Sys>, steps: seq<Step>)
    requires k.floors == map[]
    ensures IsRun(run, steps) && |run| == 4
    ensures FloorFollows(run[0].p) && CeilingFollows(run[0].p)
    ensures steps[0].CallSetMode? && MissesFloor(run[0], steps[0])
    ensures steps[1] == CallSetMode(OtherMode, true, ALL_OK) && steps[2].WorkerPass?
    ensures !FloorFollows(run[1].p) && !FloorFollows(run[2].p) && !FloorFollows(run[3].p)
  {
    var fails := ALL_OK.(gpuFloorOk := false);
    var a := BlankStart(k, l);
    InitInv(a);
    var b := CallThen(a, ExpensiveRendering, fails);
    var c := CallThen(b, OtherMode, ALL_OK);
    var d := PassThen(c);
    run := [a, b, c, d];
    steps := [CallSetMode(ExpensiveRendering, true, fails), CallSetMode(OtherMode, true, ALL_OK),
              WorkerPass(NO_OPENS, 0)];
    ThreeSteps(run, steps);
    FloorFollowsIff(a.p.limits, a.p.modes, ExpensiveRendering, true, fails);
  }

  // ---- progress

  function PendingCount(ds: seq<int>): nat {
    if ds == [] then 0 else PendingCount(ds[1..]) + (if ds[0] != NONE then 1 else 0)
  }

  /** What is left for the worker: pending deadlines, and one retry if anything failed. */
  function Work(p: State): nat {
    PendingCount(p.deadlines) + (if Outstanding(p) then 1 else 0)
  }

  predicate AllSucceed(e: ApplyEnv) {
    e.foregroundOk && e.topAppOk && |e.floor| == 2 && e.floor[0].Acquires? && e.floor[1].Acquires?
  }

  lemma PruneCount(ds: seq<int>, allowed: bool, now: int)
    ensures PendingCount(Prune(ds, allowed, now)) <= PendingCount(ds)
    ensures 0 <= now && (exists d :: d in ds && d != NONE && d <= now) ==>
              PendingCount(Prune(ds, allowed, now)) < PendingCount(ds)
  {
    if ds != [] {
      PruneCount(ds[1..], allowed, now);
      assert Prune(ds, allowed, now)[1..] == Prune(ds[1..], allowed, now);
      if d :| d in ds && d != NONE && d <= now && d != ds[0] {
        assert d in ds[1..];
      }
    }
  }

  /** A wake-up at its target whose opens and writes succeed leaves strictly less
      to do, and nothing to retry; with nothing left the worker sleeps for good. */
  lemma WakeMakesProgress(a: Sys, b: Sys, e: ApplyEnv, late: int)
    requires Inv(a) && Inv(b) && a.worker.WaitTimed? && AllSucceed(e)
    requires a.worker.wake <= e.now
    requires Next(a.(worker := Ready), b, WorkerPass(e, late))
    ensures Work(b.p) < Work(a.p)
    ensures !Outstanding(b.p)
    ensures b.worker.WaitUntimed? <==> Work(b.p) == 0
  {
    PruneCount(a.p.deadlines, Allowed(a.p.modes), e.now);
    ApplyBoostKeeps(a.p, e);
    WaitAfterCorrect(b.p, late);
    PendingCountZero(b.p.deadlines);
  }

  lemma PendingCountZero(ds: seq<int>)
    ensures PendingCount(ds) == 0 <==> !Pending(ds)
  {
    if ds != [] {
      PendingCountZero(ds[1..]);
      if i :| 0 <= i < |ds| && ds[i] != NONE && i > 0 {
        assert ds[1..][i - 1] != NONE;
      }
    }
  }

  /** A stretch in which only the worker runs: it wakes at its target each time and
      every open and write succeeds. */
  ghost predicate UndisturbedWakes(run: seq<Sys>) {
    && |run| > 0 && Inv(run[0])
    && forall i :: 0 <= i < |run| - 1 ==> WakesOnTime(run[i], run[i + 1])
  }

  ghost predicate WakesOnTime(a: Sys, b: Sys) {
    && a.worker.WaitTimed?
    && exists e, late :: AllSucceed(e) && a.worker.wake <= e.now
                         && Next(a.(worker := Ready), b, WorkerPass(e, late))
  }

  /** Left alone, the worker wakes at most `Work` times before it sleeps for good. */
  lemma {:induction false} WorkerDrains(run: seq<Sys>)
    requires UndisturbedWakes(run)
    ensures |run| - 1 <= Work(run[0].p)
    ensures Inv(run[|run| - 1])
    ensures |run| - 1 == Work(run[0].p) && |run| > 1 ==> run[|run| - 1].worker.WaitUntimed?
    decreases |run|
  {
    if |run| > 1 {
      var a, b := run[0], run[1];
      assert WakesOnTime(a, b);
      var e, late :| AllSucceed(e) && a.worker.wake <= e.now
                     && Next(a.(worker := Ready), b, WorkerPass(e, late));
      NextInv(a.(worker := Ready), b, WorkerPass(e, late));
      WakeMakesProgress(a, b, e, late);
      var rest := run[1..];
      assert forall i :: 0 <= i < |rest| - 1 ==> WakesOnTime(rest[i], rest[i + 1]) by {
        forall i | 0 <= i < |rest| - 1 ensures WakesOnTime(rest[i], rest[i + 1]) {
          assert WakesOnTime(run[i + 1], run[i + 2]);
        }
      }
      WorkerDrains(rest);
    }
  }
}
