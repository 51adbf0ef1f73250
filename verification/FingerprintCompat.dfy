/** The layer over the stock fingerprint library, which may leave out the CANCELED
    notification that a cancel owes the framework: the layer watches for it while
    the cancel runs and sends it itself if it did not come. */
module FingerprintCompat {
  import opened Wrappers

  /** The fields under the notification lock; a callback is a number. */
  datatype Shared = Shared(inProgress: bool, notified: bool, callback: Option<nat>)

  function NotifySection(s: Shared, isCanceled: bool): Shared {
    if s.inProgress && isCanceled then s.(notified := true) else s
  }

  function BeginSection(s: Shared): Shared {
    s.(inProgress := true, notified := false)
  }

  /** Whether the layer owes the framework a notification of its own. */
  function Owes(s: Shared, succeeded: bool): bool {
    succeeded && !s.notified && s.callback.Some?
  }

  function EndSection(s: Shared): Shared {
    s.(inProgress := false)
  }

  class Compat {
    var cancelInProgress: bool
    var cancelNotified: bool
    var frameworkNotify: Option<nat>

    ghost function View(): Shared
      reads this
    {
      Shared(cancelInProgress, cancelNotified, frameworkNotify)
    }

    constructor ()
      ensures View() == Shared(false, false, None)
    {
      cancelInProgress, cancelNotified, frameworkNotify := false, false, None;
    }

    method Notify(isCanceled: bool) returns (notify: Option<nat>)
      modifies this
      ensures View() == NotifySection(old(View()), isCanceled)
      ensures notify == View().callback
    {
      if cancelInProgress && isCanceled {
        cancelNotified := true;
      }
      notify := frameworkNotify;
    }

    method BeginCancel()
      modifies this
      ensures View() == BeginSection(old(View()))
    {
      cancelInProgress := true;
      cancelNotified := false;
    }

    method EndCancel(status: int) returns (notify: Option<nat>, synthesize: bool)
      modifies this
      ensures View() == EndSection(old(View()))
      ensures notify == View().callback
      ensures synthesize == Owes(old(View()), status == 0)
    {
      notify := frameworkNotify;
      synthesize := status == 0 && !cancelNotified && notify.Some?;
      cancelInProgress := false;
    }

    /** `accepted` is the stock library's status. */
    method SetNotify(callback: Option<nat>, accepted: int) returns (status: int)
      modifies this
      ensures View() == old(View()).(callback := if accepted == 0 then callback else None)
      ensures status == accepted
    {
      frameworkNotify := callback;
      status := accepted;
      if status != 0 {
        frameworkNotify := None;
      }
    }
  }

  // ---- every interleaving of cancels (one at a time) and notifications

  datatype Phase = Resting | InVendor | VendorReturned(succeeded: bool) | Synthesizing

  /** `epoch` numbers the cancels; a CANCELED belongs to the cancel during which it
      passed the lock, or that made it up.  `emitted` and `outcome` record what the
      stock library did during each cancel. */
  datatype Sys = Sys(shared: Shared, phase: Phase, epoch: nat,
                     inFlight: multiset<nat>, delivered: multiset<nat>,
                     emitted: map<nat, nat>, outcome: map<nat, bool>)

  datatype Step = CancelBegins | VendorNotifies(isCanceled: bool) | Delivers(tag: nat)
                | VendorReturns(succeeded: bool) | CancelEnds | LayerDelivers

  ghost predicate Init(s: Sys) {
    exists callback :: s == Sys(Shared(false, false, Some(callback)), Resting, 0, multiset{}, multiset{}, map[], map[])
  }

  ghost predicate Next(a: Sys, b: Sys, step: Step) {
    match step
    case CancelBegins =>
      a.phase.Resting?
      && b == a.(shared := BeginSection(a.shared), phase := InVendor, epoch := a.epoch + 1,
                 emitted := a.emitted[a.epoch + 1 := 0])
    case VendorNotifies(isCanceled) =>
      var after := a.(shared := NotifySection(a.shared, isCanceled));
      b == if isCanceled && a.shared.inProgress && a.epoch in a.emitted then
             after.(inFlight := a.inFlight + multiset{a.epoch},
                    emitted := a.emitted[a.epoch := a.emitted[a.epoch] + 1])
           else after
    case Delivers(tag) =>
      tag in a.inFlight
      && b == a.(inFlight := a.inFlight - multiset{tag}, delivered := a.delivered + multiset{tag})
    case VendorReturns(succeeded) => a.phase.InVendor? && b == a.(phase := VendorReturned(succeeded))
    case CancelEnds =>
      a.phase.VendorReturned?
      && b == a.(shared := EndSection(a.shared), outcome := a.outcome[a.epoch := a.phase.succeeded],
                 phase := if Owes(a.shared, a.phase.succeeded) then Synthesizing else Resting)
    case LayerDelivers =>
      a.phase.Synthesizing? && b == a.(phase := Resting, delivered := a.delivered + multiset{a.epoch})
  }

  ghost predicate IsRun(run: seq<Sys>, steps: seq<Step>) {
    && |run| == |steps| + 1
    && Init(run[0])
    && forall i :: 0 <= i < |steps| ==> Next(run[i], run[i + 1], steps[i])
  }

  /** How many CANCELED the framework gets, or has yet to get, for cancel `n`. */
  function Sent(s: Sys, n: nat): nat {
    s.inFlight[n] + s.delivered[n]
  }

  /** What cancel `n` owes once it is over: one more only if it succeeded and the
      stock library kept silent. */
  function Owed(emitted: nat, succeeded: bool): nat {
    if succeeded && emitted == 0 then 1 else emitted
  }

  /** The phases, and which cancels have begun and ended. */
  ghost predicate PhaseInv(s: Sys) {
    && s.shared.callback.Some?
    && (s.shared.inProgress <==> s.phase.InVendor? || s.phase.VendorReturned?)
    && (forall n :: n in s.emitted <==> 1 <= n <= s.epoch)
    && (forall n :: n in s.outcome <==> 1 <= n <= s.epoch && !(n == s.epoch && s.shared.inProgress))
    && (!s.phase.Resting? ==> s.epoch >= 1)
    && (s.shared.inProgress ==> (s.shared.notified <==> s.emitted[s.epoch] > 0))
    && (s.phase.Synthesizing? ==> s.outcome[s.epoch] && s.emitted[s.epoch] == 0)
  }

  function Expected(s: Sys, n: nat): nat {
    if n !in s.emitted then 0
    else if n in s.outcome && !(n == s.epoch && s.phase.Synthesizing?) then Owed(s.emitted[n], s.outcome[n])
    else s.emitted[n]
  }

  ghost predicate Inv(s: Sys) {
    PhaseInv(s) && forall n :: Sent(s, n) == Expected(s, n)
  }

  lemma NextPhase(a: Sys, b: Sys, step: Step)
    requires PhaseInv(a) && Next(a, b, step)
    ensures PhaseInv(b)
  {
  }

  lemma NextCount(a: Sys, b: Sys, step: Step, n: nat)
    requires PhaseInv(a) && PhaseInv(b) && Next(a, b, step)
    requires Sent(a, n) == Expected(a, n)
    ensures Sent(b, n) == Expected(b, n)
  {
  }

  lemma NextInv(a: Sys, b: Sys, step: Step)
    requires Inv(a) && Next(a, b, step)
    ensures Inv(b)
  {
    NextPhase(a, b, step);
    forall n ensures Sent(b, n) == Expected(b, n) {
      assert Sent(a, n) == Expected(a, n);
      NextCount(a, b, step, n);
    }
  }

  lemma {:induction false} RunInv(run: seq<Sys>, steps: seq<Step>, i: nat)
    requires IsRun(run, steps) && i < |run|
    ensures Inv(run[i])
  {
    if i > 0 {
      RunInv(run, steps, i - 1);
      NextInv(run[i - 1], run[i], steps[i - 1]);
    }
  }

  /** A cancel that is over brings exactly one CANCELED if it succeeded, and exactly
      what the stock library sent if it failed; with a library that sends at most
      one, success means exactly one, and with one that sends more, never. */
  lemma CancelCompleteness(run: seq<Sys>, steps: seq<Step>, i: nat, n: nat)
    requires IsRun(run, steps) && i < |run|
    requires n in run[i].outcome && !(n == run[i].epoch && run[i].phase.Synthesizing?)
    ensures n in run[i].emitted
    ensures run[i].outcome[n] ==> (Sent(run[i], n) == 1 <==> run[i].emitted[n] <= 1)
    ensures !run[i].outcome[n] ==> Sent(run[i], n) == run[i].emitted[n]
    ensures run[i].inFlight[n] == 0 ==> run[i].delivered[n] == Sent(run[i], n)
  {
    RunInv(run, steps, i);
    assert Sent(run[i], n) == Expected(run[i], n);
  }

  /** The surplus one: the stock library sends CANCELED twice during a cancel that
      succeeds, and the framework gets both. */
  lemma SurplusCanceled(callback: nat) returns (run: seq<Sys>, steps: seq<Step>)
    ensures IsRun(run, steps) && |run| == 6
    ensures 1 in run[5].outcome && run[5].outcome[1] && run[5].phase.Resting?
    ensures 1 in run[5].emitted && run[5].emitted[1] == 2 && Sent(run[5], 1) == 2
  {
    var start := Sys(Shared(false, false, Some(callback)), Resting, 0, multiset{}, multiset{}, map[], map[]);
    var begun := start.(shared := BeginSection(start.shared), phase := InVendor, epoch := 1, emitted := map[1 := 0]);
    var once := begun.(shared := NotifySection(begun.shared, true), inFlight := multiset{1}, emitted := map[1 := 1]);
    var twice := once.(inFlight := multiset{1, 1}, emitted := map[1 := 2]);
    var returned := twice.(phase := VendorReturned(true));
    var over := returned.(shared := EndSection(returned.shared), outcome := map[1 := true], phase := Resting);
    run := [start, begun, once, twice, returned, over];
    steps := [CancelBegins, VendorNotifies(true), VendorNotifies(true), VendorReturns(true), CancelEnds];
    assert Next(start, begun, CancelBegins);
    assert Next(begun, once, VendorNotifies(true));
    assert Next(once, twice, VendorNotifies(true));
    assert Next(twice, returned, VendorReturns(true));
    assert Next(returned, over, CancelEnds);
  }
}
