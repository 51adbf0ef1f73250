/** The fingerprint device: what each section under its lock does to the shared
    fields.  Matching, storage and random numbers are outcomes given from outside. */
module FingerprintSpec {
  import opened Wrappers

  const MAX_TEMPLATES := 5

  datatype Template = Template(fid: nat, data: nat)

  /** A print found in the store: its finger, and its data if it could be read and
      the sensor supports it. */
  datatype Discovered = Discovered(finger: nat, data: Option<nat>, supported: bool)

  predicate Usable(d: Discovered) {
    1 <= d.finger <= 10 && d.data.Some? && d.supported
  }

  /** The templates a reload gives: the usable prints, in order, at most five. */
  function Loaded(ds: seq<Discovered>): (r: seq<Template>)
    ensures |r| <= MAX_TEMPLATES
    ensures forall i :: 0 <= i < |r| ==> 1 <= r[i].fid <= 10
  {
    if ds == [] then []
    else
      var before := Loaded(ds[..|ds| - 1]);
      var d := ds[|ds| - 1];
      if Usable(d) && |before| < MAX_TEMPLATES then before + [Template(d.finger, d.data.value)] else before
  }

  function Fids(ts: seq<Template>): seq<nat> {
    seq(|ts|, i requires 0 <= i < |ts| => ts[i].fid)
  }

  /** The smallest id from 1 to 5 that is not in use, 0 if there is none. */
  ghost predicate IsFreeFid(ids: seq<nat>, fid: nat) {
    if fid == 0 then forall c :: 1 <= c <= MAX_TEMPLATES ==> c in ids
    else 1 <= fid <= MAX_TEMPLATES && fid !in ids && forall c :: 1 <= c < fid ==> c in ids
  }

  datatype Operation = Idle | Enroll | Authenticate

  /** The fields that say which worker there is. */
  datatype Slot = Slot(active: bool, joinable: bool, handle: nat, cancel: bool, operation: Operation)

  /** The fields that say whose templates there are. */
  datatype Data = Data(gid: nat, storeSet: bool, challenge: nat, operationId: nat,
                       userId: nat, authenticatorId: nat, templates: seq<Template>)

  datatype Device = Device(slot: Slot, data: Data)

  const EMPTY_SLOT := Slot(false, false, 0, false, Idle)
  const NO_DATA := Data(0, false, 0, 0, 0, 0, [])

  /** What a locked section of a call returns. */
  datatype Status = Success | Busy | NotPermitted | NoSpace | NotFound | Invalid | NameTooLong | CreateFailed | IoError

  // ---- the worker's slot

  /** Take over a finished worker's handle, if there is one. */
  function Reap(s: Slot): (Slot, Option<nat>) {
    if s.joinable && !s.active then (s.(joinable := false), Some(s.handle)) else (s, None)
  }

  /** `created` is the new thread, if the system could make one. */
  function Start(s: Slot, operation: Operation, created: Option<nat>): (Slot, Status) {
    if s.active || s.joinable then (s, Busy)
    else if created.None? then (s.(cancel := false, operation := Idle), CreateFailed)
    else (Slot(true, true, created.value, false, operation), Success)
  }

  datatype Stopped = Stopped(slot: Slot, join: Option<nat>, wasActive: bool)

  function Stop(s: Slot): Stopped {
    if !s.joinable then Stopped(s, None, false)
    else if s.active then Stopped(s.(cancel := true, joinable := false), Some(s.handle), true)
    else Stopped(s.(joinable := false), Some(s.handle), false)
  }

  function Finish(s: Slot): Slot {
    s.(operation := Idle, active := false)
  }

  // ---- enrolling and authenticating

  datatype Token = Token(challenge: nat, userId: nat, password: bool)

  function BeginEnroll(d: Device, token: Token, gid: nat, created: Option<nat>): (Device, Status) {
    if d.slot.active || d.slot.joinable then (d, Busy)
    else if !d.data.storeSet || gid != d.data.gid || token.challenge != d.data.challenge || !token.password then
      (d, NotPermitted)
    else if |d.data.templates| >= MAX_TEMPLATES then (d, NoSpace)
    else
      var r := Start(d.slot, Enroll, created);
      (Device(r.0, d.data.(userId := token.userId)), r.1)
  }

  function BeginAuthenticate(d: Device, operationId: nat, gid: nat, created: Option<nat>): (Device, Status) {
    if d.slot.active || d.slot.joinable then (d, Busy)
    else if gid != d.data.gid || d.data.templates == [] then (d, NotFound)
    else
      var r := Start(d.slot, Authenticate, created);
      (Device(r.0, d.data.(operationId := operationId)), r.1)
  }

  // ---- templates and metadata

  /** The outcomes of choosing and storing a new authenticator id: `random` is 0
      when the random source failed. */
  datatype RotateEnv = RotateEnv(random: nat, saved: bool)

  function Rotate(d: Data, e: RotateEnv): (Data, Status) {
    if d.templates == [] then (d.(authenticatorId := 0), if e.saved then Success else IoError)
    else (d.(authenticatorId := e.random), if e.random != 0 && e.saved then Success else IoError)
  }

  /** The section that ends an enrollment: reload, and a new authenticator id. */
  function Reloaded(d: Data, found: seq<Discovered>, e: RotateEnv): Data {
    Rotate(d.(templates := Loaded(found)), e).0
  }

  function Remove(d: Device, gid: nat, found: seq<Discovered>, e: RotateEnv): (Data, Status) {
    if d.slot.active then (d.data, Busy)
    else if gid != d.data.gid then (d.data, Invalid)
    else (Reloaded(d.data, found, e), Success)
  }

  /** What reading the metadata file gives. */
  datatype Metadata = NoFile | Unreadable | Record(userId: nat, authenticatorId: nat)

  function SetGroup(d: Device, gid: nat, fits: bool, found: seq<Discovered>, meta: Metadata, e: RotateEnv)
    : (Data, Status)
  {
    if d.slot.active then (d.data, Busy)
    else if !fits then (d.data.(storeSet := false), NameTooLong)
    else
      var known := d.data.(storeSet := true, gid := gid, templates := Loaded(found),
                           userId := if meta.Record? then meta.userId else 0,
                           authenticatorId := if meta.Record? then meta.authenticatorId else 0);
      if meta.Unreadable? then (known, IoError)
      else if known.templates == [] then (known.(authenticatorId := 0), Success)
      else if known.authenticatorId == 0 then Rotate(known, e)
      else (known, Success)
  }

  ghost predicate TableInv(d: Data) {
    && |d.templates| <= MAX_TEMPLATES
    && (forall i :: 0 <= i < |d.templates| ==> 1 <= d.templates[i].fid <= 10)
    && (d.authenticatorId != 0 ==> d.templates != [])
  }

  lemma SectionsKeepTable(d: Device, gid: nat, fits: bool, found: seq<Discovered>, meta: Metadata, e: RotateEnv)
    requires TableInv(d.data)
    ensures TableInv(Reloaded(d.data, found, e))
    ensures TableInv(Remove(d, gid, found, e).0)
    ensures TableInv(SetGroup(d, gid, fits, found, meta, e).0)
    ensures d.slot.active ==> Remove(d, gid, found, e).0 == d.data && SetGroup(d, gid, fits, found, meta, e).0 == d.data
  {
  }

  // ---- what each section is for

  ghost predicate SlotFree(s: Slot) {
    !s.active && !s.joinable
  }

  /** Who may enroll: a password token for the device's own challenge, in the active group
      of a store that is set. */
  ghost predicate MayEnroll(d: Data, token: Token, gid: nat) {
    d.storeSet && gid == d.gid && token.challenge == d.challenge && token.password
  }

  /** Exactly when an enrollment is admitted, why it is not, and what it leaves. */
  lemma EnrollExact(d: Device, token: Token, gid: nat, created: Option<nat>)
    ensures var (after, status) := BeginEnroll(d, token, gid, created);
            && (status == Success <==>
                  SlotFree(d.slot) && MayEnroll(d.data, token, gid) && |d.data.templates| < 5 && created.Some?)
            && (status == Busy <==> !SlotFree(d.slot))
            && (status == NotPermitted <==> SlotFree(d.slot) && !MayEnroll(d.data, token, gid))
            && (status == NoSpace <==>
                  SlotFree(d.slot) && MayEnroll(d.data, token, gid) && |d.data.templates| >= 5)
            && (status == Success ==>
                  after == Device(Slot(true, true, created.value, false, Enroll), d.data.(userId := token.userId)))
            && (status in {Busy, NotPermitted, NoSpace} ==> after == d)
  {
  }

  lemma AuthenticateExact(d: Device, operationId: nat, gid: nat, created: Option<nat>)
    ensures var (after, status) := BeginAuthenticate(d, operationId, gid, created);
            && (status == Success <==>
                  SlotFree(d.slot) && gid == d.data.gid && d.data.templates != [] && created.Some?)
            && (status == Busy <==> !SlotFree(d.slot))
            && (status == NotFound <==> SlotFree(d.slot) && (gid != d.data.gid || d.data.templates == []))
            && (status == Success ==>
                  after == Device(Slot(true, true, created.value, false, Authenticate),
                                  d.data.(operationId := operationId)))
            && (status in {Busy, NotFound} ==> after == d)
  {
  }

  /** A finished worker does not stand in the way of the next: once its handle is taken
      over, a new one can start, whatever the last one left. */
  lemma ReapThenStart(s: Slot, operation: Operation, h: nat)
    ensures s.joinable && !s.active ==> Reap(s).1 == Some(s.handle)
    ensures !s.active ==> Start(Reap(s).0, operation, Some(h)) == (Slot(true, true, h, false, operation), Success)
    ensures s.active ==> Reap(s) == (s, None)
  {
  }

  /** After a stop no handle is left in the device, the one that was there is handed out,
      and a worker that was active is told. */
  lemma StopTakesAll(s: Slot)
    ensures var r := Stop(s);
            && !r.slot.joinable && r.slot.active == s.active && r.slot.operation == s.operation
            && r.join == (if s.joinable then Some(s.handle) else None)
            && r.wasActive == (s.joinable && s.active)
            && r.slot.cancel == (s.cancel || r.wasActive)
  {
  }

  /** The authenticator id is gone with the last template and new otherwise; the call
      succeeds when there is an id to store and it is stored. */
  lemma RotateExact(d: Data, e: RotateEnv)
    ensures var (after, status) := Rotate(d, e);
            && after == d.(authenticatorId := after.authenticatorId)
            && (d.templates == [] ==> after.authenticatorId == 0)
            && (d.templates != [] ==> after.authenticatorId == e.random)
            && (status == Success <==> e.saved && (d.templates != [] ==> e.random != 0))
  {
  }

  lemma RemoveExact(d: Device, gid: nat, found: seq<Discovered>, e: RotateEnv)
    ensures var (after, status) := Remove(d, gid, found, e);
            && (status == Busy <==> d.slot.active)
            && (status == Invalid <==> !d.slot.active && gid != d.data.gid)
            && (status == Success <==> !d.slot.active && gid == d.data.gid)
            && (status != Success ==> after == d.data)
            && (status == Success ==>
                  && after.templates == Loaded(found) && after.userId == d.data.userId
                  && after.authenticatorId == if Loaded(found) == [] then 0 else e.random)
  {
  }

  /** A group change brings the stored record back, each id in its own place; an
      authenticator id needs a template, and one that is missing is made. */
  lemma GroupExact(d: Device, gid: nat, fits: bool, found: seq<Discovered>, meta: Metadata, e: RotateEnv)
    ensures var (after, status) := SetGroup(d, gid, fits, found, meta, e);
            && (d.slot.active ==> status == Busy && after == d.data)
            && (!d.slot.active && !fits ==> status == NameTooLong && after == d.data.(storeSet := false))
            && (!d.slot.active && fits ==>
                  && after.gid == gid && after.storeSet && after.templates == Loaded(found)
                  && after.challenge == d.data.challenge && after.operationId == d.data.operationId
                  && after.userId == (match meta case Record(u, _) => u case _ => 0)
                  && match meta
                     case Unreadable => status == IoError && after.authenticatorId == 0
                     case NoFile => after.authenticatorId == if Loaded(found) == [] then 0 else e.random
                     case Record(_, a) =>
                       && after.authenticatorId == (if Loaded(found) == [] then 0 else if a != 0 then a else e.random)
                       && (Loaded(found) == [] || a != 0 ==> status == Success))
  {
  }

  /** How many of the first `n` prints can be used. */
  function UsableBefore(ds: seq<Discovered>, n: nat): nat
    requires n <= |ds|
  {
    if n == 0 then 0
    else
      var d := ds[n - 1];
      UsableBefore(ds, n - 1) + (if 1 <= d.finger <= 10 && d.data.Some? && d.supported then 1 else 0)
  }

  lemma {:induction false} UsablePrefix(ds: seq<Discovered>, more: seq<Discovered>, n: nat)
    requires n <= |ds|
    ensures UsableBefore(ds + more, n) == UsableBefore(ds, n)
  {
    if n > 0 {
      UsablePrefix(ds, more, n - 1);
    }
  }

  /** The table is the first five usable prints: as many as there are, and the k-th
      template is the k-th usable print. */
  lemma {:induction false} LoadedExact(ds: seq<Discovered>)
    ensures |Loaded(ds)| == if UsableBefore(ds, |ds|) < 5 then UsableBefore(ds, |ds|) else 5
    ensures forall i :: 0 <= i < |ds| && UsableBefore(ds, i) < UsableBefore(ds, i + 1) && UsableBefore(ds, i) < 5 ==>
              && UsableBefore(ds, i) < |Loaded(ds)| && ds[i].data.Some?
              && Loaded(ds)[UsableBefore(ds, i)] == Template(ds[i].finger, ds[i].data.value)
  {
    if ds != [] {
      var init, d := ds[..|ds| - 1], ds[|ds| - 1];
      assert ds == init + [d];
      LoadedExact(init);
      forall n | 0 <= n <= |init| ensures UsableBefore(ds, n) == UsableBefore(init, n) {
        UsablePrefix(init, [d], n);
      }
      forall i | 0 <= i < |ds| && UsableBefore(ds, i) < UsableBefore(ds, i + 1) && UsableBefore(ds, i) < 5
        ensures UsableBefore(ds, i) < |Loaded(ds)| && ds[i].data.Some?
        ensures Loaded(ds)[UsableBefore(ds, i)] == Template(ds[i].finger, ds[i].data.value)
      {
        if i < |init| {
          assert UsableBefore(init, i) < UsableBefore(init, i + 1) && ds[i] == init[i];
        }
      }
    }
  }

  // ---- the free id

  lemma {:induction false} DistinctCount(ids: seq<nat>, n: nat)
    requires forall c :: 1 <= c <= n ==> c in ids
    ensures |ids| >= n
    decreases n
  {
    if n > 0 {
      assert n in ids;
      var k :| 0 <= k < |ids| && ids[k] == n;
      var rest := ids[..k] + ids[k + 1..];
      forall c | 1 <= c <= n - 1 ensures c in rest {
        assert c in ids;
        var j :| 0 <= j < |ids| && ids[j] == c;
        assert rest[if j < k then j else j - 1] == c;
      }
      DistinctCount(rest, n - 1);
    }
  }

  /** Pigeonhole: fewer than five templates leave one of five ids free. */
  lemma RoomMeansFreeFid(ids: seq<nat>, fid: nat)
    requires |ids| < MAX_TEMPLATES && IsFreeFid(ids, fid)
    ensures fid != 0 && fid !in ids
  {
    if fid == 0 {
      DistinctCount(ids, MAX_TEMPLATES);
      assert false;
    }
  }
}
