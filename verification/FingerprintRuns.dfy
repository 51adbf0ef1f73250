/** Every interleaving of API calls and the worker threads they start.  One step is
    one section under the device lock, one completed join, or one step of a worker
    between two sections.  `close` is not among the calls: it must not overlap any
    other, and what it may rely on is stated at the end. */
module FingerprintRuns {
  import opened Wrappers
  import opened FingerprintSpec

  /** How far a worker is: it waits for the sensor, it has found its cancel flag clear
      after that and deals with what the sensor said, or it is further on.  `seen` is
      the template table it was started with. */
  datatype Thread = Looping(kind: Operation, seen: seq<Template>)
                  | Checked(kind: Operation, seen: seq<Template>)
                  | HasFid(fid: nat, seen: seq<Template>)
                  | HasMatch(index: nat, seen: seq<Template>)
                  | Ending
                  | Finished
                  | Returned

  /** The locked part of a call, once it has reaped. */
  datatype Body = EnrollBody(token: Token, gid: nat)
                | AuthenticateBody(operationId: nat, gid: nat)
                | StopBody(sendCancel: bool)
                | RemoveBody(gid: nat)
                | GroupBody(gid: nat, fits: bool)
                | EnumerateBody

  /** Where a call stands. */
  datatype Call = Reaping(body: Body)
                | ReapJoining(h: nat, body: Body)
                | Ready(body: Body)
                | StopJoining(h: nat, wasActive: bool, sendCancel: bool)
                | Reporting(h: nat)

  /** Where the handle of a created thread is: a history of the run that no step
      looks at.  `told` says whether CANCELED was sent. */
  datatype Place = InDevice | WithCall(c: nat) | ToReport(c: nat) | Settled(told: bool)

  datatype Sys = Sys(slot: Slot, data: Data, threads: map<nat, Thread>, calls: map<nat, Call>,
                     place: map<nat, Place>, targeted: set<nat>, joined: multiset<nat>, canceled: multiset<nat>)

  datatype Step = Arrive(c: nat, body: Body)
                | ReapSection(c: nat)
                | JoinReturns(c: nat)
                | BodySection(c: nat, created: Option<nat>, found: seq<Discovered>, meta: Metadata, e: RotateEnv)
                | SendCanceled(c: nat)
                | SetChallenge(challenge: nat)
                | WorkerChecks(h: nat)
                | WorkerGoesOn(h: nat)
                | WorkerFindsFid(h: nat, fid: nat)
                | WorkerEnrolls(h: nat, found: seq<Discovered>, e: RotateEnv)
                | WorkerMatches(h: nat, index: nat)
                | WorkerReportsMatch(h: nat)
                | WorkerGivesUp(h: nat)
                | WorkerFinishes(h: nat)
                | WorkerReturns(h: nat)

  /** The worker has not yet passed its last section. */
  predicate Alive(t: Thread) {
    !t.Finished? && !t.Returned?
  }

  predicate UsesTable(t: Thread) {
    t.Looping? || t.Checked? || t.HasFid? || t.HasMatch?
  }

  /** The handle a call has taken over and not yet joined. */
  predicate Holds(c: Call, h: nat) {
    (c.ReapJoining? || c.StopJoining?) && c.h == h
  }

  ghost predicate Init(s: Sys) {
    s == Sys(EMPTY_SLOT, NO_DATA, map[], map[], map[], {}, multiset{}, multiset{})
  }

  /** The sections of the calls that may start a worker. */
  function BeginWorker(d: Device, body: Body, created: Option<nat>): (Device, Status)
    requires body.EnrollBody? || body.AuthenticateBody?
  {
    if body.EnrollBody? then BeginEnroll(d, body.token, body.gid, created)
    else BeginAuthenticate(d, body.operationId, body.gid, created)
  }

  function KindOf(body: Body): Operation {
    if body.EnrollBody? then Enroll else Authenticate
  }

  ghost predicate StartStep(a: Sys, b: Sys, c: nat, body: Body, created: Option<nat>)
    requires body.EnrollBody? || body.AuthenticateBody?
  {
    var r := BeginWorker(Device(a.slot, a.data), body, created);
    var after := a.(slot := r.0.slot, data := r.0.data, calls := a.calls - {c});
    && (created.Some? ==> created.value !in a.threads)
    && b == if r.1 == Success && created.Some? then
              after.(threads := a.threads[created.value := Looping(KindOf(body), a.data.templates)],
                     place := a.place[created.value := InDevice])
            else after
  }

  ghost predicate StopStep(a: Sys, b: Sys, c: nat, send: bool) {
    var r := Stop(a.slot);
    if r.join.None? then b == a.(slot := r.slot, calls := a.calls - {c})
    else b == a.(slot := r.slot,
                 calls := a.calls[c := StopJoining(r.join.value, r.wasActive, send)],
                 place := a.place[r.join.value := WithCall(c)],
                 targeted := if r.wasActive then a.targeted + {r.join.value} else a.targeted)
  }

  ghost predicate ReapStep(a: Sys, b: Sys, c: nat, body: Body) {
    var r := Reap(a.slot);
    if r.1.None? then b == a.(slot := r.0, calls := a.calls[c := Ready(body)])
    else b == a.(slot := r.0, calls := a.calls[c := ReapJoining(r.1.value, body)],
                 place := a.place[r.1.value := WithCall(c)])
  }

  /** The join that a call waits for returns. */
  ghost predicate JoinStep(a: Sys, b: Sys, c: nat, k: Call)
    requires k.ReapJoining? || k.StopJoining?
  {
    && k.h in a.threads && a.threads[k.h].Returned?
    && var after := a.(joined := a.joined + multiset{k.h});
       if k.ReapJoining? then b == after.(calls := a.calls[c := Ready(k.body)], place := a.place[k.h := Settled(false)])
       else if k.wasActive && k.sendCancel then
         b == after.(calls := a.calls[c := Reporting(k.h)], place := a.place[k.h := ToReport(c)])
       else b == after.(calls := a.calls - {c}, place := a.place[k.h := Settled(false)])
  }

  ghost predicate BodyStep(a: Sys, b: Sys, c: nat, body: Body, created: Option<nat>,
                           found: seq<Discovered>, meta: Metadata, e: RotateEnv)
  {
    match body
    case EnrollBody(_, _) => StartStep(a, b, c, body, created)
    case AuthenticateBody(_, _) => StartStep(a, b, c, body, created)
    case StopBody(send) => StopStep(a, b, c, send)
    case RemoveBody(gid) =>
      b == a.(data := Remove(Device(a.slot, a.data), gid, found, e).0, calls := a.calls - {c})
    case GroupBody(gid, fits) =>
      b == a.(data := SetGroup(Device(a.slot, a.data), gid, fits, found, meta, e).0, calls := a.calls - {c})
    case EnumerateBody => b == a.(calls := a.calls - {c})
  }

  ghost predicate CallStep(a: Sys, b: Sys, step: Step) {
    match step
    case Arrive(c, body) => c !in a.calls && b == a.(calls := a.calls[c := Reaping(body)])
    case ReapSection(c) => c in a.calls && a.calls[c].Reaping? && ReapStep(a, b, c, a.calls[c].body)
    case JoinReturns(c) =>
      c in a.calls && (a.calls[c].ReapJoining? || a.calls[c].StopJoining?) && JoinStep(a, b, c, a.calls[c])
    case BodySection(c, created, found, meta, e) =>
      c in a.calls && a.calls[c].Ready? && BodyStep(a, b, c, a.calls[c].body, created, found, meta, e)
    case SendCanceled(c) =>
      && c in a.calls && a.calls[c].Reporting?
      && var h := a.calls[c].h;
         b == a.(calls := a.calls - {c}, canceled := a.canceled + multiset{h}, place := a.place[h := Settled(true)])
    case SetChallenge(challenge) => b == a.(data := a.data.(challenge := challenge))
    case _ => false
  }

  /** A worker step; only the phase of its own thread and the shared fields change. */
  ghost predicate WorkerStep(a: Sys, b: Sys, step: Step, h: nat, t: Thread) {
    match step
    case WorkerChecks(_) =>
      t.Looping? && b == a.(threads := a.threads[h := if a.slot.cancel then Ending else Checked(t.kind, t.seen)])
    case WorkerGoesOn(_) => t.Checked? && b == a.(threads := a.threads[h := Looping(t.kind, t.seen)])
    case WorkerFindsFid(_, fid) =>
      && t.Checked? && t.kind == Enroll && IsFreeFid(Fids(a.data.templates), fid)
      && b == a.(threads := a.threads[h := if fid == 0 then Ending else HasFid(fid, t.seen)])
    case WorkerEnrolls(_, found, e) =>
      t.HasFid? && b == a.(data := Reloaded(a.data, found, e), threads := a.threads[h := Ending])
    case WorkerMatches(_, index) =>
      && t.Checked? && t.kind == Authenticate
      && b == a.(threads := a.threads[h := if index < |a.data.templates| then HasMatch(index, t.seen) else Ending])
    case WorkerReportsMatch(_) => t.HasMatch? && b == a.(threads := a.threads[h := Ending])
    case WorkerGivesUp(_) => UsesTable(t) && b == a.(threads := a.threads[h := Ending])
    case WorkerFinishes(_) => t.Ending? && b == a.(slot := Finish(a.slot), threads := a.threads[h := Finished])
    case WorkerReturns(_) => t.Finished? && b == a.(threads := a.threads[h := Returned])
    case _ => false
  }

  predicate OfWorker(step: Step) {
    step.WorkerChecks? || step.WorkerGoesOn? || step.WorkerFindsFid? || step.WorkerEnrolls?
    || step.WorkerMatches? || step.WorkerReportsMatch?
    || step.WorkerGivesUp? || step.WorkerFinishes? || step.WorkerReturns?
  }

  ghost predicate Next(a: Sys, b: Sys, step: Step) {
    if OfWorker(step) then step.h in a.threads && WorkerStep(a, b, step, step.h, a.threads[step.h])
    else CallStep(a, b, step)
  }

  ghost predicate StepAt(run: seq<Sys>, steps: seq<Step>, i: nat)
    requires |run| == |steps| + 1 && i < |steps|
  {
    Next(run[i], run[i + 1], steps[i])
  }

  ghost predicate IsRun(run: seq<Sys>, steps: seq<Step>) {
    && |run| == |steps| + 1
    && Init(run[0])
    && forall i :: 0 <= i < |steps| ==> StepAt(run, steps, i)
  }

  // ---- the invariant

  /** The one alive thread, if any, is the one the device calls active. */
  ghost predicate WorkerInv(s: Sys) {
    && (s.slot.active <==> s.slot.operation != Idle)
    && (s.slot.active ==> s.slot.handle in s.threads)
    && (forall h :: h in s.threads ==> (Alive(s.threads[h]) <==> s.slot.active && s.slot.handle == h))
  }

  /** The handle of every thread is in exactly one place until it is joined. */
  ghost predicate HandleInv(s: Sys) {
    && s.place.Keys == s.threads.Keys
    && (s.slot.joinable ==> s.slot.handle in s.place)
    && forall h :: h in s.place ==> HandleOk(s, h, s.place[h], s.threads[h])
  }

  ghost predicate HandleOk(s: Sys, h: nat, p: Place, t: Thread) {
    && (p.InDevice? <==> s.slot.joinable && s.slot.handle == h)
    && (p.WithCall? ==> p.c in s.calls && Holds(s.calls[p.c], h))
    && (p.ToReport? ==> p.c in s.calls && s.calls[p.c] == Reporting(h))
    && (p.ToReport? || p.Settled? ==> t.Returned?)
  }

  ghost predicate CallInv(s: Sys) {
    forall c :: c in s.calls ==> CallOk(s, c, s.calls[c])
  }

  ghost predicate CallOk(s: Sys, c: nat, k: Call) {
    && (k.ReapJoining? || k.StopJoining? ==> k.h in s.place && s.place[k.h] == WithCall(c))
    && (k.StopJoining? && k.wasActive ==> k.h in s.targeted)
    && (k.Reporting? ==> k.h in s.place && s.place[k.h] == ToReport(c) && k.h in s.targeted)
  }

  function JoinsAt(place: map<nat, Place>, h: nat): nat {
    if h in place && (place[h].ToReport? || place[h].Settled?) then 1 else 0
  }

  function CancelsAt(place: map<nat, Place>, h: nat): nat {
    if h in place && place[h] == Settled(true) then 1 else 0
  }

  /** How often each handle was joined and each cancellation reported. */
  ghost predicate CountInv(s: Sys) {
    && (forall h :: s.joined[h] == JoinsAt(s.place, h))
    && (forall h :: s.canceled[h] == CancelsAt(s.place, h))
  }

  /** A cancellation reaches the worker it was meant for and no other. */
  ghost predicate CancelInv(s: Sys) {
    && (s.slot.active ==> (s.slot.cancel <==> s.slot.handle in s.targeted))
    && (forall h :: h in s.targeted ==> h in s.place && !s.place[h].InDevice?)
    && (forall h :: h in s.place && s.place[h] == Settled(true) ==> h in s.targeted)
  }

  /** The table a worker started with is the table there is. */
  ghost predicate FrozenInv(s: Sys) {
    && TableInv(s.data)
    && forall h :: h in s.threads ==> ThreadOk(s.threads[h], s.data.templates)
  }

  ghost predicate ThreadOk(t: Thread, table: seq<Template>) {
    && (UsesTable(t) ==> table == t.seen)
    && ((t.Looping? || t.Checked?) && t.kind == Enroll ==> |t.seen| < MAX_TEMPLATES)
    && (t.HasFid? ==> t.fid != 0 && t.fid !in Fids(t.seen))
    && (t.HasMatch? ==> t.index < |t.seen|)
  }

  ghost predicate Inv(s: Sys) {
    WorkerInv(s) && HandleInv(s) && CallInv(s) && CountInv(s) && CancelInv(s) && FrozenInv(s)
  }

  ghost predicate OwnershipInv(s: Sys) {
    HandleInv(s) && CallInv(s)
  }

  /** A step that leaves the workers and their handles alone. */
  ghost predicate Inert(a: Sys, b: Sys) {
    && b == a.(data := b.data, calls := b.calls)
    && TableInv(b.data) && (a.slot.active ==> b.data.templates == a.data.templates)
    && (forall c :: c in b.calls ==> (c in a.calls && b.calls[c] == a.calls[c]) || b.calls[c].Reaping?)
    && (forall c :: c in a.calls && !a.calls[c].Ready? ==> c in b.calls && b.calls[c] == a.calls[c])
  }

  lemma InertKeepsWorkers(a: Sys, b: Sys)
    requires Inv(a) && Inert(a, b)
    ensures WorkerInv(b) && CountInv(b) && CancelInv(b) && FrozenInv(b)
  {
  }

  lemma InertKeepsOwnership(a: Sys, b: Sys)
    requires Inv(a) && Inert(a, b)
    ensures OwnershipInv(b)
  {
  }

  lemma InertKeeps(a: Sys, b: Sys)
    requires Inv(a) && Inert(a, b)
    ensures Inv(b)
  {
    InertKeepsWorkers(a, b);
    InertKeepsOwnership(a, b);
  }

  lemma StartKeeps(a: Sys, b: Sys, c: nat, body: Body, created: Option<nat>)
    requires Inv(a) && c in a.calls && a.calls[c] == Ready(body)
    requires (body.EnrollBody? || body.AuthenticateBody?) && StartStep(a, b, c, body, created)
    ensures WorkerInv(b) && CancelInv(b)
  {
  }

  lemma StartKeepsTable(a: Sys, b: Sys, c: nat, body: Body, created: Option<nat>)
    requires Inv(a) && c in a.calls && a.calls[c] == Ready(body)
    requires (body.EnrollBody? || body.AuthenticateBody?) && StartStep(a, b, c, body, created)
    ensures FrozenInv(b) && CountInv(b)
  {
  }

  lemma StartKeepsOwnership(a: Sys, b: Sys, c: nat, body: Body, created: Option<nat>)
    requires Inv(a) && c in a.calls && a.calls[c] == Ready(body)
    requires (body.EnrollBody? || body.AuthenticateBody?) && StartStep(a, b, c, body, created)
    ensures OwnershipInv(b)
  {
  }

  lemma StopKeeps(a: Sys, b: Sys, c: nat, send: bool)
    requires Inv(a) && c in a.calls && a.calls[c].Ready? && StopStep(a, b, c, send)
    ensures WorkerInv(b) && CancelInv(b)
  {
  }

  lemma StopKeepsTable(a: Sys, b: Sys, c: nat, send: bool)
    requires Inv(a) && c in a.calls && a.calls[c].Ready? && StopStep(a, b, c, send)
    ensures FrozenInv(b) && CountInv(b)
  {
  }

  lemma StopKeepsOwnership(a: Sys, b: Sys, c: nat, send: bool)
    requires Inv(a) && c in a.calls && a.calls[c].Ready? && StopStep(a, b, c, send)
    ensures OwnershipInv(b)
  {
    if Stop(a.slot).join.Some? {
      assert HandleOk(a, a.slot.handle, a.place[a.slot.handle], a.threads[a.slot.handle]);
    }
  }

  lemma ReapKeeps(a: Sys, b: Sys, c: nat, body: Body)
    requires Inv(a) && c in a.calls && a.calls[c] == Reaping(body) && ReapStep(a, b, c, body)
    ensures WorkerInv(b) && CancelInv(b) && FrozenInv(b) && CountInv(b)
  {
  }

  lemma ReapKeepsOwnership(a: Sys, b: Sys, c: nat, body: Body)
    requires Inv(a) && c in a.calls && a.calls[c] == Reaping(body) && ReapStep(a, b, c, body)
    ensures OwnershipInv(b)
  {
    if Reap(a.slot).1.Some? {
      assert HandleOk(a, a.slot.handle, a.place[a.slot.handle], a.threads[a.slot.handle]);
    }
  }

  lemma JoinKeeps(a: Sys, b: Sys, c: nat, k: Call)
    requires Inv(a) && c in a.calls && a.calls[c] == k && (k.ReapJoining? || k.StopJoining?) && JoinStep(a, b, c, k)
    ensures WorkerInv(b) && CancelInv(b)
  {
    assert CallOk(a, c, k);
  }

  lemma JoinKeepsTable(a: Sys, b: Sys, c: nat, k: Call)
    requires Inv(a) && c in a.calls && a.calls[c] == k && (k.ReapJoining? || k.StopJoining?) && JoinStep(a, b, c, k)
    ensures FrozenInv(b) && CountInv(b)
  {
    assert CallOk(a, c, k);
  }

  lemma JoinKeepsHandles(a: Sys, b: Sys, c: nat, k: Call)
    requires Inv(a) && c in a.calls && a.calls[c] == k && (k.ReapJoining? || k.StopJoining?) && JoinStep(a, b, c, k)
    ensures HandleInv(b)
  {
    assert CallOk(a, c, k);
    forall h | h in b.place ensures HandleOk(b, h, b.place[h], b.threads[h]) {
      assert HandleOk(a, h, a.place[h], a.threads[h]);
    }
  }

  lemma JoinKeepsCalls(a: Sys, b: Sys, c: nat, k: Call)
    requires Inv(a) && c in a.calls && a.calls[c] == k && (k.ReapJoining? || k.StopJoining?) && JoinStep(a, b, c, k)
    ensures CallInv(b)
  {
    assert CallOk(a, c, k);
    forall d | d in b.calls ensures CallOk(b, d, b.calls[d]) {
      assert CallOk(a, d, a.calls[d]);
    }
  }

  lemma ReportKeeps(a: Sys, b: Sys, c: nat)
    requires Inv(a) && CallStep(a, b, SendCanceled(c))
    ensures WorkerInv(b) && CancelInv(b) && FrozenInv(b) && CountInv(b)
  {
    assert CallOk(a, c, a.calls[c]);
  }

  lemma ReportKeepsOwnership(a: Sys, b: Sys, c: nat)
    requires Inv(a) && CallStep(a, b, SendCanceled(c))
    ensures OwnershipInv(b)
  {
    assert CallOk(a, c, a.calls[c]);
    forall h | h in b.place ensures HandleOk(b, h, b.place[h], b.threads[h]) {
      assert HandleOk(a, h, a.place[h], a.threads[h]);
    }
    forall d | d in b.calls ensures CallOk(b, d, b.calls[d]) {
      assert CallOk(a, d, a.calls[d]);
    }
  }

  lemma WorkerKeeps(a: Sys, b: Sys, step: Step)
    requires Inv(a) && OfWorker(step) && Next(a, b, step)
    ensures WorkerInv(b) && CancelInv(b) && CountInv(b)
  {
  }

  /** The table: an enrolling worker replaces it as the only one that uses it, and
      every other worker step leaves it. */
  lemma WorkerKeepsTable(a: Sys, b: Sys, step: Step)
    requires Inv(a) && OfWorker(step) && Next(a, b, step)
    ensures FrozenInv(b)
  {
    var h := step.h;
    assert ThreadOk(a.threads[h], a.data.templates);
    forall g | g in b.threads ensures ThreadOk(b.threads[g], b.data.templates) {
      assert ThreadOk(a.threads[g], a.data.templates);
      assert Alive(a.threads[g]) <==> a.slot.active && a.slot.handle == g;
    }
  }

  lemma WorkerKeepsOwnership(a: Sys, b: Sys, step: Step)
    requires Inv(a) && OfWorker(step) && Next(a, b, step)
    ensures OwnershipInv(b)
  {
    forall h | h in b.place ensures HandleOk(b, h, b.place[h], b.threads[h]) {
      assert HandleOk(a, h, a.place[h], a.threads[h]);
    }
    forall d | d in b.calls ensures CallOk(b, d, b.calls[d]) {
      assert CallOk(a, d, a.calls[d]);
    }
  }

  lemma StartSectionKeeps(a: Sys, b: Sys, c: nat, body: Body, created: Option<nat>)
    requires Inv(a) && c in a.calls && a.calls[c] == Ready(body)
    requires (body.EnrollBody? || body.AuthenticateBody?) && StartStep(a, b, c, body, created)
    ensures Inv(b)
  {
    StartKeeps(a, b, c, body, created);
    StartKeepsTable(a, b, c, body, created);
    StartKeepsOwnership(a, b, c, body, created);
  }

  lemma StopSectionKeeps(a: Sys, b: Sys, c: nat, send: bool)
    requires Inv(a) && c in a.calls && a.calls[c].Ready? && StopStep(a, b, c, send)
    ensures Inv(b)
  {
    StopKeeps(a, b, c, send);
    StopKeepsTable(a, b, c, send);
    StopKeepsOwnership(a, b, c, send);
  }

  lemma TableSectionInert(a: Sys, b: Sys, step: Step)
    requires Inv(a) && step.BodySection? && Next(a, b, step)
    requires var body := a.calls[step.c].body; body.RemoveBody? || body.GroupBody? || body.EnumerateBody?
    ensures Inert(a, b)
  {
    var body := a.calls[step.c].body;
    SectionsKeepTable(Device(a.slot, a.data), if body.EnumerateBody? then 0 else body.gid,
                      body.GroupBody? && body.fits, step.found, step.meta, step.e);
  }

  lemma BodyKeeps(a: Sys, b: Sys, step: Step)
    requires Inv(a) && step.BodySection? && Next(a, b, step)
    ensures Inv(b)
  {
    var c := step.c;
    var body := a.calls[c].body;
    if body.EnrollBody? || body.AuthenticateBody? {
      StartSectionKeeps(a, b, c, body, step.created);
    } else if body.StopBody? {
      StopSectionKeeps(a, b, c, body.sendCancel);
    } else {
      TableSectionInert(a, b, step);
      InertKeeps(a, b);
    }
  }

  lemma NextInv(a: Sys, b: Sys, step: Step)
    requires Inv(a) && Next(a, b, step)
    ensures Inv(b)
  {
    if OfWorker(step) {
      WorkerKeeps(a, b, step);
      WorkerKeepsTable(a, b, step);
      WorkerKeepsOwnership(a, b, step);
    } else {
      match step {
        case Arrive(_, _) => InertKeeps(a, b);
        case ReapSection(c) =>
          ReapKeeps(a, b, c, a.calls[c].body);
          ReapKeepsOwnership(a, b, c, a.calls[c].body);
        case JoinReturns(c) =>
          JoinKeeps(a, b, c, a.calls[c]);
          JoinKeepsTable(a, b, c, a.calls[c]);
          JoinKeepsHandles(a, b, c, a.calls[c]);
          JoinKeepsCalls(a, b, c, a.calls[c]);
        case BodySection(_, _, _, _, _) => BodyKeeps(a, b, step);
        case SendCanceled(c) =>
          ReportKeeps(a, b, c);
          ReportKeepsOwnership(a, b, c);
        case SetChallenge(_) => InertKeeps(a, b);
      }
    }
  }

  lemma {:induction false} RunInv(run: seq<Sys>, steps: seq<Step>, i: nat)
    requires IsRun(run, steps) && i < |run|
    ensures Inv(run[i])
  {
    if i > 0 {
      RunInv(run, steps, i - 1);
      assert StepAt(run, steps, i - 1);
      NextInv(run[i - 1], run[i], steps[i - 1]);
    }
  }

  // ---- the theorems

  /** At most one worker is active, and the device says which. */
  lemma OneWorker(run: seq<Sys>, steps: seq<Step>, i: nat)
    requires IsRun(run, steps) && i < |run|
    ensures var s := run[i];
            && (s.slot.active <==> s.slot.operation != Idle)
            && (s.slot.active <==> exists h :: h in s.threads && Alive(s.threads[h]))
            && (forall g, h :: g in s.threads && h in s.threads && Alive(s.threads[g]) && Alive(s.threads[h]) ==>
                  g == h)
  {
    RunInv(run, steps, i);
  }

  /** No handle is lost and none is joined twice: a created thread is joined exactly
      once, or its handle is in the device and with no call, or with exactly one call. */
  lemma HandlesConserved(run: seq<Sys>, steps: seq<Step>, i: nat, h: nat)
    requires IsRun(run, steps) && i < |run|
    ensures var s := run[i];
            && s.joined[h] <= 1
            && (h in s.joined ==> h in s.threads && s.threads[h].Returned?)
            && (h in s.threads && h !in s.joined ==>
                  if s.slot.joinable && s.slot.handle == h
                  then forall c :: c in s.calls ==> !Holds(s.calls[c], h)
                  else exists c :: c in s.calls && Holds(s.calls[c], h)
                                   && forall d :: d in s.calls && Holds(s.calls[d], h) ==> d == c)
  {
    RunInv(run, steps, i);
    var s := run[i];
    forall c | c in s.calls ensures CallOk(s, c, s.calls[c]) {}
    if h in s.threads && h !in s.joined {
      assert s.joined[h] == JoinsAt(s.place, h);
      assert HandleOk(s, h, s.place[h], s.threads[h]);
    }
  }

  /** What a running worker reads in its cancel flag is whether a stop call was made
      for that very worker. */
  lemma CancelReachesItsWorker(run: seq<Sys>, steps: seq<Step>, i: nat, h: nat)
    requires IsRun(run, steps) && i < |run| && h in run[i].threads && Alive(run[i].threads[h])
    ensures run[i].slot.cancel <==> h in run[i].targeted
  {
    RunInv(run, steps, i);
  }

  /** Cancelled, and not past the check that comes before a match or an enrollment. */
  ghost predicate Doomed(s: Sys, h: nat) {
    && h in s.targeted && h in s.threads
    && !s.threads[h].Checked? && !s.threads[h].HasFid? && !s.threads[h].HasMatch?
  }

  lemma CallsLeaveThreads(a: Sys, b: Sys, step: Step, h: nat)
    requires Next(a, b, step) && !OfWorker(step) && h in a.threads
    ensures h in b.threads && b.threads[h] == a.threads[h]
  {
  }

  lemma DoomedStays(a: Sys, b: Sys, step: Step, h: nat)
    requires Inv(a) && Next(a, b, step) && Doomed(a, h)
    ensures Doomed(b, h)
    ensures (step.WorkerEnrolls? || step.WorkerReportsMatch?) ==> step.h != h
  {
    if OfWorker(step) {
      DoomedWorkerStays(a, b, step, h);
    } else {
      CallsLeaveThreads(a, b, step, h);
      TargetedOnlyByStop(a, b, step, h);
    }
  }

  lemma DoomedWorkerStays(a: Sys, b: Sys, step: Step, h: nat)
    requires WorkerInv(a) && CancelInv(a) && OfWorker(step) && Next(a, b, step) && Doomed(a, h)
    ensures Doomed(b, h)
    ensures (step.WorkerEnrolls? || step.WorkerReportsMatch?) ==> step.h != h
  {
    assert Alive(a.threads[h]) ==> a.slot.cancel;
    assert b.targeted == a.targeted;
  }

  lemma {:induction false} DoomedFrom(run: seq<Sys>, steps: seq<Step>, i: nat, j: nat, h: nat)
    requires IsRun(run, steps) && i <= j < |run| && Doomed(run[i], h)
    ensures Doomed(run[j], h)
  {
    if i < j {
      DoomedFrom(run, steps, i, j - 1, h);
      RunInv(run, steps, j - 1);
      assert StepAt(run, steps, j - 1);
      DoomedStays(run[j - 1], run[j], steps[j - 1], h);
    }
  }

  /** A worker that is cancelled before it checks never reports a match and never stores
      an enrollment afterwards. */
  lemma CancelledNeverReports(run: seq<Sys>, steps: seq<Step>, i: nat, j: nat, h: nat)
    requires IsRun(run, steps) && i <= j < |steps|
    requires h in run[i].targeted && h in run[i].threads && run[i].threads[h].Looping?
    ensures (steps[j].WorkerEnrolls? || steps[j].WorkerReportsMatch?) ==> steps[j].h != h
  {
    DoomedFrom(run, steps, i, j, h);
    RunInv(run, steps, j);
    assert StepAt(run, steps, j);
    DoomedStays(run[j], run[j + 1], steps[j], h);
  }

  /** `targeted` grows only where a stop call finds its worker active, and never
      shrinks; so the flag, once set, stays set until the worker finishes. */
  lemma TargetedOnlyByStop(a: Sys, b: Sys, step: Step, h: nat)
    requires Next(a, b, step)
    ensures a.targeted <= b.targeted
    ensures h in b.targeted && h !in a.targeted ==>
              && step.BodySection? && a.calls[step.c].body.StopBody?
              && a.slot.active && a.slot.handle == h && b.slot.cancel
  {
  }

  /** Each worker's cancellation is reported at most once, only after its join, and
      only if it was cancelled while active. */
  lemma CanceledOnceAfterJoin(run: seq<Sys>, steps: seq<Step>, i: nat, h: nat)
    requires IsRun(run, steps) && i < |run|
    ensures run[i].canceled[h] <= 1
    ensures h in run[i].canceled ==> run[i].joined[h] == 1 && h in run[i].targeted
  {
    RunInv(run, steps, i);
    var s := run[i];
    assert s.canceled[h] == CancelsAt(s.place, h) && s.joined[h] == JoinsAt(s.place, h);
  }

  /** An enrollment that was admitted always finds an id, and the id is still free
      when the print was saved under it. */
  lemma EnrollmentFindsFid(run: seq<Sys>, steps: seq<Step>, i: nat)
    requires IsRun(run, steps) && i < |steps|
    ensures steps[i].WorkerFindsFid? ==>
              && 1 <= steps[i].fid <= MAX_TEMPLATES
              && steps[i].fid !in Fids(run[i].data.templates)
              && steps[i].h in run[i + 1].threads && run[i + 1].threads[steps[i].h].HasFid?
    ensures steps[i].WorkerEnrolls? ==>
              && steps[i].h in run[i].threads && run[i].threads[steps[i].h].HasFid?
              && run[i].threads[steps[i].h].fid !in Fids(run[i].data.templates)
  {
    RunInv(run, steps, i);
    var a := run[i];
    assert StepAt(run, steps, i);
    if steps[i].WorkerFindsFid? {
      assert ThreadOk(a.threads[steps[i].h], a.data.templates);
      RoomMeansFreeFid(Fids(a.data.templates), steps[i].fid);
    }
    if steps[i].WorkerEnrolls? {
      assert ThreadOk(a.threads[steps[i].h], a.data.templates);
    }
  }

  predicate Enrolling(t: Thread) {
    ((t.Looping? || t.Checked?) && t.kind == Enroll) || t.HasFid?
  }

  predicate Authenticating(t: Thread) {
    ((t.Looping? || t.Checked?) && t.kind == Authenticate) || t.HasMatch?
  }

  /** The step starts worker `h` for a call that was entitled to it: to enroll with a
      password token for the challenge the device had at that step, in its active group,
      with room for a template; to authenticate in its active group, with a template. */
  ghost predicate Admits(a: Sys, step: Step, h: nat, enroll: bool) {
    && step.BodySection? && step.created == Some(h) && h !in a.threads && SlotFree(a.slot)
    && step.c in a.calls && a.calls[step.c].Ready?
    && var body := a.calls[step.c].body;
       if enroll then
         && body.EnrollBody? && a.data.storeSet && body.gid == a.data.gid
         && body.token.challenge == a.data.challenge && body.token.password && |a.data.templates| < 5
       else body.AuthenticateBody? && body.gid == a.data.gid && a.data.templates != []
  }

  lemma StartAdmits(a: Sys, b: Sys, step: Step, h: nat)
    requires Next(a, b, step) && h in b.threads && h !in a.threads
    ensures Enrolling(b.threads[h]) ==> Admits(a, step, h, true)
    ensures Authenticating(b.threads[h]) ==> Admits(a, step, h, false)
  {
    if step.BodySection? {
      var d, body := Device(a.slot, a.data), a.calls[step.c].body;
      if body.EnrollBody? {
        EnrollExact(d, body.token, body.gid, step.created);
      } else if body.AuthenticateBody? {
        AuthenticateExact(d, body.operationId, body.gid, step.created);
      }
    }
  }

  lemma KindStays(a: Sys, b: Sys, step: Step, h: nat)
    requires Next(a, b, step) && h in b.threads && h in a.threads
    ensures Enrolling(b.threads[h]) ==> Enrolling(a.threads[h])
    ensures Authenticating(b.threads[h]) ==> Authenticating(a.threads[h])
  {
    if !OfWorker(step) {
      CallsLeaveThreads(a, b, step, h);
    }
  }

  /** Every worker that enrolls or authenticates was started by a call entitled to it. */
  lemma {:induction false} WorkersWereAdmitted(run: seq<Sys>, steps: seq<Step>, i: nat, h: nat) returns (j: nat)
    requires IsRun(run, steps) && i < |run| && h in run[i].threads
    requires Enrolling(run[i].threads[h]) || Authenticating(run[i].threads[h])
    ensures j < i && Admits(run[j], steps[j], h, Enrolling(run[i].threads[h]))
  {
    assert i > 0;
    assert StepAt(run, steps, i - 1);
    var a, b, step := run[i - 1], run[i], steps[i - 1];
    if h in a.threads {
      KindStays(a, b, step, h);
      j := WorkersWereAdmitted(run, steps, i - 1, h);
    } else {
      StartAdmits(a, b, step, h);
      j := i - 1;
    }
  }

  /** A match index that was accepted names a template of the table that the worker
      was given, when the match is reported too. */
  lemma MatchNamesTemplate(run: seq<Sys>, steps: seq<Step>, i: nat)
    requires IsRun(run, steps) && i < |steps| && steps[i].WorkerReportsMatch?
    ensures steps[i].h in run[i].threads && run[i].threads[steps[i].h].HasMatch?
    ensures run[i].threads[steps[i].h].index < |run[i].data.templates|
    ensures run[i].data.templates == run[i].threads[steps[i].h].seen
  {
    RunInv(run, steps, i);
    assert StepAt(run, steps, i);
    assert ThreadOk(run[i].threads[steps[i].h], run[i].data.templates);
  }

  /** In every unlocked state there are at most five templates, and a nonzero
      authenticator id means that there is one. */
  lemma AuthenticatorNeedsTemplate(run: seq<Sys>, steps: seq<Step>, i: nat)
    requires IsRun(run, steps) && i < |run|
    ensures |run[i].data.templates| <= MAX_TEMPLATES
    ensures run[i].data.authenticatorId != 0 ==> run[i].data.templates != []
  {
    RunInv(run, steps, i);
  }

  /** What `close` relies on after its own stop: with no call under way and no handle
      left in the device, every thread ever created was joined and none is active. */
  lemma QuietWhenNothingJoinable(run: seq<Sys>, steps: seq<Step>, i: nat, h: nat)
    requires IsRun(run, steps) && i < |run|
    requires run[i].calls == map[] && !run[i].slot.joinable
    ensures !run[i].slot.active
    ensures h in run[i].threads ==> run[i].joined[h] == 1
  {
    RunInv(run, steps, i);
    var s := run[i];
    forall g | g in s.threads ensures s.joined[g] == 1 && s.threads[g].Returned? {
      assert HandleOk(s, g, s.place[g], s.threads[g]);
      assert s.joined[g] == JoinsAt(s.place, g);
    }
  }
}
