/** The device structure itself, with its two template arrays updated in place. */
module FingerprintDevice {
  import opened Wrappers
  import opened FingerprintSpec

  function Paired(fids: seq<nat>, data: seq<Option<nat>>): (r: seq<Template>)
    requires |fids| == |data| && forall i :: 0 <= i < |data| ==> data[i].Some?
    ensures |r| == |fids|
    ensures Fids(r) == fids
  {
    seq(|fids|, i requires 0 <= i < |fids| => Template(fids[i], data[i].value))
  }

  class M86Device {
    var active: bool
    var joinable: bool
    var handle: nat
    var cancel: bool
    var operation: Operation
    var gid: nat
    var storeSet: bool
    var challenge: nat
    var operationId: nat
    var userId: nat
    var authenticatorId: nat
    /** One slot more than templates: the gallery ends with an empty one. */
    const gallery: array<Option<nat>>
    const ids: array<nat>
    var count: nat

    /** The gallery is filled exactly below `count`, so its first empty slot is there. */
    ghost predicate Valid()
      reads this, gallery, ids
    {
      && gallery.Length == MAX_TEMPLATES + 1 && ids.Length == MAX_TEMPLATES
      && count <= MAX_TEMPLATES
      && (forall i :: 0 <= i < gallery.Length ==> (gallery[i].Some? <==> i < count))
    }

    ghost function Table(): seq<Template>
      reads this, gallery, ids
      requires Valid()
    {
      Paired(ids[..count], gallery[..count])
    }

    ghost function SlotView(): Slot
      reads this
    {
      Slot(active, joinable, handle, cancel, operation)
    }

    ghost function View(): Device
      reads this, gallery, ids
      requires Valid()
    {
      Device(SlotView(), Data(gid, storeSet, challenge, operationId, userId, authenticatorId, Table()))
    }

    constructor ()
      ensures Valid() && fresh(gallery) && fresh(ids)
      ensures View() == Device(EMPTY_SLOT, NO_DATA)
    {
      active, joinable, handle, cancel, operation := false, false, 0, false, Idle;
      gid, storeSet, challenge, operationId, userId, authenticatorId := 0, false, 0, 0, 0, 0;
      gallery := new Option<nat>[MAX_TEMPLATES + 1](_ => None);
      ids := new nat[MAX_TEMPLATES](_ => 0);
      count := 0;
    }

    method FreeTemplatesLocked()
      requires Valid()
      modifies gallery, ids, this`count
      ensures Valid() && count == 0
      ensures forall i :: 0 <= i < ids.Length ==> ids[i] == if i < old(count) then 0 else old(ids[i])
    {
      var index := 0;
      while index < count
        invariant 0 <= index <= count == old(count)
        invariant forall i :: 0 <= i < gallery.Length ==> (gallery[i].Some? <==> index <= i < count)
        invariant forall i :: 0 <= i < ids.Length ==> ids[i] == if i < index then 0 else old(ids[i])
      {
        gallery[index] := None;
        ids[index] := 0;
        index := index + 1;
      }
      count := 0;
    }

    method LoadTemplatesLocked(found: seq<Discovered>)
      requires Valid()
      modifies gallery, ids, this`count
      ensures Valid() && Table() == Loaded(found)
    {
      FreeTemplatesLocked();
      var index := 0;
      while index < |found|
        invariant 0 <= index <= |found|
        invariant Valid() && Table() == Loaded(found[..index])
      {
        var d := found[index];
        assert found[..index + 1][..index] == found[..index];
        if !(d.finger == 0 || d.finger > 10 || count >= MAX_TEMPLATES) {
          if d.data.Some? && d.supported {
            ghost var before := Table();
            gallery[count] := d.data;
            ids[count] := d.finger;
            count := count + 1;
            assert Table() == before + [Template(d.finger, d.data.value)];
          }
        }
        index := index + 1;
      }
      assert found[..|found|] == found;
    }

    method FindFreeFidLocked() returns (fid: nat)
      requires Valid()
      ensures IsFreeFid(Fids(Table()), fid)
    {
      var candidate := 1;
      while candidate <= MAX_TEMPLATES
        invariant 1 <= candidate <= MAX_TEMPLATES + 1
        invariant forall c :: 1 <= c < candidate ==> c in ids[..count]
      {
        var index := 0;
        var used := false;
        while index < count
          invariant 0 <= index <= count
          invariant !used && candidate !in ids[..index]
        {
          if ids[index] == candidate {
            used := true;
            break;
          }
          assert ids[..index + 1] == ids[..index] + [ids[index]];
          index := index + 1;
        }
        if !used {
          return candidate;
        }
        assert ids[..count][index] == candidate;
        candidate := candidate + 1;
      }
      fid := 0;
    }

    method ReapLocked() returns (join: Option<nat>)
      modifies this`joinable
      ensures (SlotView(), join) == Reap(old(SlotView()))
    {
      join := None;
      if joinable && !active {
        join := Some(handle);
        joinable := false;
      }
    }

    method StartWorkerLocked(kind: Operation, created: Option<nat>) returns (status: Status)
      modifies this`cancel, this`operation, this`active, this`handle, this`joinable
      ensures (SlotView(), status) == Start(old(SlotView()), kind, created)
    {
      if active || joinable { return Busy; }
      cancel := false;
      operation := kind;
      active := true;
      if created.None? {
        active := false;
        operation := Idle;
        return CreateFailed;
      }
      handle := created.value;
      joinable := true;
      status := Success;
    }

    method StopLocked() returns (join: Option<nat>, wasActive: bool)
      modifies this`cancel, this`joinable
      ensures Stopped(SlotView(), join, wasActive) == Stop(old(SlotView()))
    {
      join, wasActive := None, false;
      if joinable {
        if active {
          cancel := true;
          wasActive := true;
        }
        join := Some(handle);
        joinable := false;
      }
    }

    method FinishWorkerLocked()
      modifies this`operation, this`active
      ensures SlotView() == Finish(old(SlotView()))
    {
      operation := Idle;
      active := false;
    }

    method RotateAuthenticatorLocked(e: RotateEnv) returns (status: Status)
      requires Valid()
      modifies this`authenticatorId
      ensures Valid() && (View().data, status) == Rotate(old(View().data), e)
    {
      if count == 0 {
        authenticatorId := 0;
      } else {
        authenticatorId := e.random;
        if authenticatorId == 0 { return IoError; }
      }
      status := if e.saved then Success else IoError;
    }

    /** `meta` is what the file gives. */
    method LoadMetadataLocked(meta: Metadata) returns (status: Status)
      modifies this`userId, this`authenticatorId
      ensures userId == (if meta.Record? then meta.userId else 0)
      ensures authenticatorId == (if meta.Record? then meta.authenticatorId else 0)
      ensures status == if meta.Unreadable? then IoError else Success
    {
      userId, authenticatorId := 0, 0;
      match meta {
        case NoFile => status := Success;
        case Unreadable => status := IoError;
        case Record(user, auth) =>
          userId, authenticatorId := user, auth;
          status := Success;
      }
    }

    method SetActiveGroupLocked(group: nat, fits: bool, found: seq<Discovered>, meta: Metadata, e: RotateEnv)
      returns (status: Status)
      requires Valid()
      modifies this, gallery, ids
      ensures Valid() && SlotView() == old(SlotView())
      ensures (View().data, status) == SetGroup(old(View()), group, fits, found, meta, e)
      ensures !old(active) && fits && meta.Record? ==>
                && userId == meta.userId
                && authenticatorId == (if count == 0 then 0
                                       else if meta.authenticatorId != 0 then meta.authenticatorId else e.random)
    {
      if active { return Busy; }
      storeSet := true;
      if !fits {
        storeSet := false;
        return NameTooLong;
      }
      gid := group;
      LoadTemplatesLocked(found);
      status := LoadMetadataLocked(meta);
      if status == Success && count == 0 {
        authenticatorId := 0;
      } else if status == Success && authenticatorId == 0 {
        status := RotateAuthenticatorLocked(e);
      }
    }

    method EnrollLocked(token: Token, group: nat, created: Option<nat>) returns (status: Status)
      requires Valid()
      modifies this
      ensures Valid() && (View(), status) == BeginEnroll(old(View()), token, group, created)
      ensures status == Success <==>
                old(!active && !joinable && storeSet && group == gid && token.challenge == challenge
                    && token.password && count < 5) && created.Some?
    {
      if active || joinable { return Busy; }
      if !storeSet || group != gid || token.challenge != challenge || !token.password {
        return NotPermitted;
      }
      if count >= MAX_TEMPLATES { return NoSpace; }
      userId := token.userId;
      status := StartWorkerLocked(Enroll, created);
    }

    method AuthenticateLocked(id: nat, group: nat, created: Option<nat>) returns (status: Status)
      requires Valid()
      modifies this
      ensures Valid() && (View(), status) == BeginAuthenticate(old(View()), id, group, created)
      ensures status == Success <==> old(!active && !joinable && group == gid && count > 0) && created.Some?
    {
      if active || joinable { return Busy; }
      if group != gid || count == 0 { return NotFound; }
      operationId := id;
      status := StartWorkerLocked(Authenticate, created);
    }

    /** The end of an enrollment, and of a removal. */
    method ReloadLocked(found: seq<Discovered>, e: RotateEnv) returns (status: Status)
      requires Valid()
      modifies this`count, this`authenticatorId, gallery, ids
      ensures Valid() && View().data == Reloaded(old(View().data), found, e)
      ensures status == if Loaded(found) == [] || e.random != 0 then (if e.saved then Success else IoError) else IoError
    {
      LoadTemplatesLocked(found);
      status := RotateAuthenticatorLocked(e);
    }
  }
}
