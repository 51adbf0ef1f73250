/** The sensor HAL's poll: it asks the device again until something is left after
    the ambiguous light and proximity events are dropped. */
module SensorPoll {
  import opened Wrappers
  import opened Clocks

  const MAX_BUFFER := 128
  const PERMISSION_DENIED := -1
  const NO_MEMORY := -12
  const BAD_VALUE := -22

  datatype Event = Event(sensor: int, kind: int, timestamp: int, payload: int)

  datatype Status = OK | PermissionDenied | NoMemory | BadValue | InvalidOperation

  function ResultFromStatus(err: int): Status {
    if err == 0 then OK
    else if err == PERMISSION_DENIED then PermissionDenied
    else if err == NO_MEMORY then NoMemory
    else if err == BAD_VALUE then BadValue
    else InvalidOperation
  }

  /** One round: the clocks before, what the device returned and wrote, the clocks after. */
  datatype Round = Round(before: Sample, result: int, events: seq<Event>, after: Sample)

  /** What becomes of one event: dropped, retimed, or passed on. */
  function Judge(e: Event, before: Sample, after: Sample): seq<Event> {
    if IsLegacyInputSensor(e.sensor, e.kind) then
      var t := Normalize(e.timestamp, before, after);
      if t.None? then [] else [e.(timestamp := t.value)]
    else [e]
  }

  function Kept(es: seq<Event>, before: Sample, after: Sample): seq<Event> {
    if es == [] then []
    else Kept(es[..|es| - 1], before, after) + Judge(es[|es| - 1], before, after)
  }

  // ---- what a delivery is, position by position

  /** The light sensor, or one of the two proximity sensors. */
  predicate FromLegacy(e: Event) {
    (e.kind == 5 && e.sensor == 4) || (e.kind == 8 && e.sensor in {3, 27})
  }

  /** The event is not ambiguous. */
  predicate Keepable(e: Event, before: Sample, after: Sample) {
    FromLegacy(e) ==> Normalize(e.timestamp, before, after).Some?
  }

  ghost predicate NoneKeepable(es: seq<Event>, before: Sample, after: Sample) {
    forall i :: 0 <= i < |es| ==> !Keepable(es[i], before, after)
  }

  /** `d` is what becomes of the device's event `e`: a legacy event is retimed and nothing
      else about it changes, any other is passed on. */
  predicate DeliveredAs(e: Event, d: Event, before: Sample, after: Sample) {
    if FromLegacy(e) then
      && d.sensor == e.sensor && d.kind == e.kind && d.payload == e.payload
      && Normalize(e.timestamp, before, after) == Some(d.timestamp)
    else d == e
  }

  /** `at` maps what is delivered to positions of the batch: upwards, onto exactly the
      events that are not ambiguous. */
  ghost predicate Filters(es: seq<Event>, out: seq<Event>, before: Sample, after: Sample, at: seq<nat>) {
    && |at| == |out|
    && (forall k :: 0 <= k < |at| ==> at[k] < |es| && DeliveredAs(es[at[k]], out[k], before, after))
    && (forall j, k :: 0 <= j < k < |at| ==> at[j] < at[k])
    && (forall i: nat :: i < |es| ==> (i in at <==> Keepable(es[i], before, after)))
  }

  ghost predicate IsDelivery(es: seq<Event>, out: seq<Event>, before: Sample, after: Sample) {
    exists at :: Filters(es, out, before, after, at)
  }

  lemma FiltersSkip(es: seq<Event>, e: Event, out: seq<Event>, before: Sample, after: Sample, at: seq<nat>)
    requires Filters(es, out, before, after, at) && !Keepable(e, before, after)
    ensures Filters(es + [e], out, before, after, at)
  {
    assert forall i :: 0 <= i < |es| ==> (es + [e])[i] == es[i];
    assert |es| !in at;
  }

  lemma FiltersKeep(es: seq<Event>, e: Event, out: seq<Event>, d: Event, before: Sample, after: Sample, at: seq<nat>)
    requires Filters(es, out, before, after, at) && Keepable(e, before, after) && DeliveredAs(e, d, before, after)
    ensures Filters(es + [e], out + [d], before, after, at + [|es|])
  {
    var all, more := es + [e], at + [|es|];
    assert forall i :: 0 <= i < |es| ==> all[i] == es[i];
    assert forall i :: i in more <==> i in at || i == |es|;
  }

  /** The filter delivers exactly that. */
  lemma {:induction false} KeptFilters(es: seq<Event>, before: Sample, after: Sample) returns (at: seq<nat>)
    ensures Filters(es, Kept(es, before, after), before, after, at)
  {
    if es == [] {
      at := [];
    } else {
      var init, e := es[..|es| - 1], es[|es| - 1];
      assert es == init + [e];
      at := KeptFilters(init, before, after);
      var out := Kept(init, before, after);
      var judged := Judge(e, before, after);
      if judged == [] {
        FiltersSkip(init, e, out, before, after, at);
        assert out + judged == out;
      } else {
        assert judged == [judged[0]];
        FiltersKeep(init, e, out, judged[0], before, after, at);
        at := at + [|init|];
      }
    }
  }

  lemma KeptIsDelivery(es: seq<Event>, before: Sample, after: Sample)
    ensures IsDelivery(es, Kept(es, before, after), before, after)
  {
    var at := KeptFilters(es, before, after);
  }

  /** Nothing is left exactly when every event is ambiguous. */
  lemma NothingKept(es: seq<Event>, before: Sample, after: Sample)
    ensures Kept(es, before, after) == [] <==> NoneKeepable(es, before, after)
  {
    var at := KeptFilters(es, before, after);
    if at != [] {
      assert at[0] in at;
    }
  }

  /** A batch has one delivery only. */
  lemma {:induction false} DeliveryUnique(es: seq<Event>, a: seq<Event>, b: seq<Event>, before: Sample, after: Sample,
                                          at: seq<nat>, bt: seq<nat>)
    requires Filters(es, a, before, after, at) && Filters(es, b, before, after, bt)
    ensures a == b
  {
    SameImage(at, bt, |es|);
    forall k | 0 <= k < |a| ensures a[k] == b[k] {
      assert DeliveredAs(es[at[k]], a[k], before, after) && DeliveredAs(es[bt[k]], b[k], before, after);
    }
  }

  ghost predicate Upwards(at: seq<nat>) {
    forall j, k :: 0 <= j < k < |at| ==> at[j] < at[k]
  }

  /** Two upward maps onto the same positions are the same. */
  lemma {:induction false} SameImage(at: seq<nat>, bt: seq<nat>, n: nat)
    requires Upwards(at) && Upwards(bt)
    requires forall k :: 0 <= k < |at| ==> at[k] < n
    requires forall k :: 0 <= k < |bt| ==> bt[k] < n
    requires forall i: nat :: i < n ==> (i in at <==> i in bt)
    ensures at == bt
    decreases n
  {
    if n > 0 {
      var a, b := if n - 1 in at then at[..|at| - 1] else at, if n - 1 in bt then bt[..|bt| - 1] else bt;
      Shorter(at, n);
      Shorter(bt, n);
      forall i: nat | i < n - 1 ensures i in a <==> i in b {
        assert i in at <==> i in bt;
      }
      SameImage(a, b, n - 1);
    }
  }

  lemma LastIsGreatest(at: seq<nat>, k: nat)
    requires Upwards(at) && k < |at|
    ensures at[k] <= at[|at| - 1]
  {
  }

  lemma Shorter(at: seq<nat>, n: nat)
    requires n > 0 && Upwards(at) && forall k :: 0 <= k < |at| ==> at[k] < n
    ensures n - 1 in at ==> |at| > 0 && at[|at| - 1] == n - 1
    ensures var a := if n - 1 in at then at[..|at| - 1] else at;
            && Upwards(a) && (forall k :: 0 <= k < |a| ==> a[k] < n - 1)
            && (forall i: nat :: i < n - 1 ==> (i in a <==> i in at))
  {
    if n - 1 in at {
      var k :| 0 <= k < |at| && at[k] == n - 1;
      LastIsGreatest(at, k);
      assert at == at[..|at| - 1] + [n - 1];
    }
  }

  method CompactLoop(data: array<Event>, count: nat, before: Sample, after: Sample) returns (kept: nat)
    requires count <= data.Length
    modifies data
    ensures kept <= count
    ensures data[..kept] == Kept(old(data[..count]), before, after)
  {
    kept := 0;
    ghost var batch := data[..count];
    for i := 0 to count
      invariant kept <= i
      invariant data[..kept] == Kept(batch[..i], before, after)
      invariant forall j :: i <= j < count ==> data[j] == batch[j]
    {
      assert batch[..i + 1][..i] == batch[..i];
      var event := data[i];
      var keep := true;
      if IsLegacyInputSensor(event.sensor, event.kind) {
        var normalized := Normalize(event.timestamp, before, after);
        if normalized.None? {
          keep := false;
        } else {
          event := event.(timestamp := normalized.value);
          data[i] := event;
        }
      }
      if keep {
        ghost var front := data[..kept];
        data[kept] := event;
        kept := kept + 1;
        assert data[..kept] == front + [event];
      }
    }
    assert batch[..count] == batch;
  }

  /** The compaction, in place: what is delivered moves to the front. */
  method Compact(data: array<Event>, count: nat, before: Sample, after: Sample) returns (kept: nat)
    requires count <= data.Length
    modifies data
    ensures kept <= count && (kept == 0 <==> NoneKeepable(old(data[..count]), before, after))
    ensures IsDelivery(old(data[..count]), data[..kept], before, after)
  {
    ghost var batch := data[..count];
    kept := CompactLoop(data, count, before, after);
    KeptIsDelivery(batch, before, after);
    NothingKept(batch, before, after);
  }

  ghost predicate Plausible(r: Round) {
    0 <= r.result ==> |r.events| == r.result
  }

  /** The round says nothing that can be delivered, so poll goes on. */
  ghost predicate Barren(r: Round, size: int) {
    0 <= r.result <= size && |r.events| == r.result && NoneKeepable(r.events, r.before, r.after)
  }

  datatype Outcome = Delivered(status: Status, events: seq<Event>) | StillWaiting

  function BufferSize(maxCount: int): int {
    if maxCount <= MAX_BUFFER then maxCount else MAX_BUFFER
  }

  /** The framework's result for each status of the device. */
  lemma StatusMeans(err: int)
    ensures ResultFromStatus(err) == OK <==> err == 0
    ensures ResultFromStatus(err) == PermissionDenied <==> err == -1
    ensures ResultFromStatus(err) == NoMemory <==> err == -12
    ensures ResultFromStatus(err) == BadValue <==> err == -22
    ensures ResultFromStatus(err) == InvalidOperation <==> err !in {0, -1, -12, -22}
  {
  }

  /** This round ends the poll with this outcome: more events than there is room for, an
      error of the device, or a batch that leaves something. */
  ghost predicate Ends(r: Round, size: int, o: Outcome) {
    o.Delivered?
    && if r.result > size then o == Delivered(BadValue, [])
       else if r.result < 0 then o == Delivered(ResultFromStatus(r.result), []) && o.status != OK
       else
         && 0 < r.result && o.status == OK && 1 <= |o.events| <= r.result
         && IsDelivery(r.events, o.events, r.before, r.after)
  }

  /** One turn of the loop. */
  method Turn(data: array<Event>, bufferSize: int, round: Round) returns (done: bool, o: Outcome)
    requires data.Length == bufferSize && Plausible(round)
    modifies data
    ensures done <==> !Barren(round, bufferSize)
    ensures done ==> Ends(round, bufferSize, o)
  {
    var err := round.result;
    if err > bufferSize {
      return true, Delivered(ResultFromStatus(BAD_VALUE), []);
    }
    if err > 0 {
      forall i | 0 <= i < err {
        data[i] := round.events[i];
      }
      assert data[..err] == round.events;
      err := Compact(data, err, round.before, round.after);
    }
    if err < 0 {
      return true, Delivered(ResultFromStatus(err), []);
    }
    if err > 0 {
      return true, Delivered(OK, data[..err]);
    }
    return false, StillWaiting;
  }

  /** The poll ends with the first round that is not barren, and says what that round
      says: exactly its batch, in order, with ambiguous events dropped, accepted ones
      retimed and the others untouched, or its error.  Nothing is ever delivered as OK
      and empty. */
  method Poll(maxCount: int, rounds: seq<Round>) returns (r: Outcome, used: nat)
    requires forall i :: 0 <= i < |rounds| ==> Plausible(rounds[i])
    ensures maxCount <= 0 ==> r == Delivered(BadValue, []) && used == 0
    ensures maxCount > 0 && r.Delivered? ==>
      && 1 <= used <= |rounds| && Ends(rounds[used - 1], BufferSize(maxCount), r)
      && forall i :: 0 <= i < used - 1 ==> Barren(rounds[i], BufferSize(maxCount))
    ensures r.Delivered? && r.status == OK ==> 1 <= |r.events| <= maxCount && |r.events| <= 128
    ensures r.StillWaiting? ==>
      maxCount > 0 && forall i :: 0 <= i < |rounds| ==> Barren(rounds[i], BufferSize(maxCount))
  {
    used := 0;
    if maxCount <= 0 {
      return Delivered(ResultFromStatus(BAD_VALUE), []), used;
    }
    var bufferSize := if maxCount <= MAX_BUFFER then maxCount else MAX_BUFFER;
    var blank := Event(0, 0, 0, 0);
    var data := new Event[bufferSize](_ => blank);
    while used < |rounds|
      invariant used <= |rounds|
      invariant forall i :: 0 <= i < used ==> Barren(rounds[i], bufferSize)
      decreases |rounds| - used
    {
      var done, o := Turn(data, bufferSize, rounds[used]);
      used := used + 1;
      if done {
        return o, used;
      }
    }
    r := StillWaiting;
  }
}
