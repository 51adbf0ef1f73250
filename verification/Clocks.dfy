/** Turning the wall-clock timestamps of two legacy sensors into boot time.  All
    quantities are nanoseconds; a 64-bit machine integer is an `int` in `In64`. */
module Clocks {
  import opened Wrappers

  const SECOND := 1_000_000_000
  const MAX_SPREAD := 1_000_000
  const MAX_STEP := 5_000_000
  const MAX_AGE := 10 * SECOND
  const MAX_AHEAD := 1_000_000
  const TWO62 := 0x4000_0000_0000_0000

  ghost predicate In64(x: int) {
    -0x8000_0000_0000_0000 <= x < 0x8000_0000_0000_0000
  }

  datatype Sample = Sample(boot: int, real_: int, valid: bool)

  const INVALID := Sample(0, 0, false)

  /** One try at reading the three clocks; `failed` if a call failed. */
  datatype Reading = Reading(failed: bool, start: int, wall: int, end: int)

  predicate Tight(r: Reading) {
    r.start <= r.end && r.end - r.start <= MAX_SPREAD
  }

  function FromReading(r: Reading): Sample {
    Sample(r.start + (r.end - r.start) / 2, r.wall, true)
  }

  /** The first tight reading among three, unless a clock fails before it. */
  method SampleClocks(readings: seq<Reading>) returns (s: Sample)
    requires |readings| == 3
    ensures s.valid <==> exists i :: 0 <= i < 3 && Chosen(readings, i)
    ensures forall i :: 0 <= i < 3 && Chosen(readings, i) ==> s == FromReading(readings[i])
    ensures !s.valid ==> s == INVALID
  {
    for i := 0 to 3
      invariant forall j :: 0 <= j < i ==> !readings[j].failed && !Tight(readings[j])
    {
      var r := readings[i];
      if r.failed { return INVALID; }
      if r.start <= r.end && r.end - r.start <= 1_000_000 {
        assert Chosen(readings, i);
        return FromReading(r);
      }
    }
    s := INVALID;
  }

  predicate Chosen(readings: seq<Reading>, i: nat)
    requires i < |readings|
  {
    && !readings[i].failed && Tight(readings[i])
    && forall j :: 0 <= j < i ==> !readings[j].failed && !Tight(readings[j])
  }

  predicate IsLegacyInputSensor(handle: int, kind: int) {
    (kind == 5 && handle == 4) || (kind == 8 && (handle == 3 || handle == 27))
  }

  /** The wall-clock reading less the boot-time reading of a sample. */
  function Offset(s: Sample): int {
    s.real_ - s.boot
  }

  /** The guard against a wall-clock step between the two samples. */
  predicate Suspects(before: Sample, after: Sample) {
    var change := Offset(after) - Offset(before);
    change > MAX_STEP || change < -MAX_STEP
  }

  function Normalize(timestamp: int, before: Sample, after: Sample): Option<int> {
    if !before.valid || !after.valid || timestamp <= 0 then None
    else if Suspects(before, after) then None
    else if timestamp < after.real_ - MAX_AGE || timestamp > after.real_ + MAX_AHEAD then None
    else
      var converted := timestamp - Offset(after);
      if converted <= 0 then None else Some(converted)
  }

  ghost predicate SaneSample(s: Sample) {
    0 <= s.boot < TWO62 && 0 <= s.real_ < TWO62
  }

  /** No intermediate value leaves 64 bits, whatever the timestamp; the subtraction
      is only reached when the age test passed. */
  lemma NoOverflow(timestamp: int, before: Sample, after: Sample)
    requires In64(timestamp) && SaneSample(before) && SaneSample(after)
    ensures In64(Offset(after)) && In64(Offset(before)) && In64(Offset(after) - Offset(before))
    ensures In64(after.real_ - MAX_AGE) && In64(after.real_ + MAX_AHEAD)
    ensures after.real_ - MAX_AGE <= timestamp <= after.real_ + MAX_AHEAD ==> In64(timestamp - Offset(after))
  {
  }

  /** The sum in a sample, too. */
  lemma SampleInRange(r: Reading)
    requires Tight(r) && 0 <= r.start && r.end < TWO62 && 0 <= r.wall < TWO62
    ensures SaneSample(FromReading(r))
    ensures r.start <= FromReading(r).boot <= r.end
  {
  }

  /** An accepted result is positive and lies in the window around the poll, and two
      results of one poll are as far apart as their timestamps. */
  lemma AcceptedWindow(t1: int, t2: int, before: Sample, after: Sample)
    requires Normalize(t1, before, after).Some?
    ensures var c1 := Normalize(t1, before, after).value;
            && 0 < c1
            && after.boot - MAX_AGE <= c1 <= after.boot + MAX_AHEAD
            && (Normalize(t2, before, after).Some? ==> Normalize(t2, before, after).value - c1 == t2 - t1)
  {
  }

  /** The wall clock runs at a fixed distance from boot time around this reading:
      it was read at the boot instant `at`. */
  ghost predicate Honest(r: Reading, distance: int, at: int) {
    !r.failed && Tight(r) && r.start <= at <= r.end && r.wall == at + distance
  }

  /** The sample's offset is the true one within half a millisecond. */
  lemma OffsetError(r: Reading, distance: int, at: int)
    requires Honest(r, distance, at)
    ensures -500_000 <= Offset(FromReading(r)) - distance <= 500_000
  {
  }

  /** With a constant true offset nothing is rejected for a clock step, and the
      result is the boot instant of capture within half a millisecond. */
  lemma ConversionError(capture: int, distance: int, rb: Reading, ab: int, ra: Reading, aa: int)
    requires Honest(rb, distance, ab) && Honest(ra, distance, aa)
    ensures var before, after := FromReading(rb), FromReading(ra);
            var r := Normalize(capture + distance, before, after);
            && (r.Some? ==> -500_000 <= r.value - capture <= 500_000)
            && (r.Some? <==>
                  && capture + distance > 0
                  && aa - MAX_AGE <= capture <= aa + MAX_AHEAD
                  && capture > aa - after.boot)
  {
    OffsetError(rb, distance, ab);
    OffsetError(ra, distance, aa);
  }

  /** A fresh event well after boot is always accepted. */
  lemma FreshAccepted(capture: int, distance: int, rb: Reading, ab: int, ra: Reading, aa: int)
    requires Honest(rb, distance, ab) && Honest(ra, distance, aa)
    requires 500_000 < capture && 0 <= distance && aa - MAX_AGE <= capture <= aa
    ensures Normalize(capture + distance, FromReading(rb), FromReading(ra)).Some?
  {
    ConversionError(capture, distance, rb, ab, ra, aa);
    OffsetError(ra, distance, aa);
  }

  // ---- a step of the wall clock across the poll

  /** The two readings of one poll, in order; the wall clock stands at distance `d0`
      from boot time at the first and at `d1` at the second. */
  ghost predicate Across(rb: Reading, d0: int, ab: int, ra: Reading, d1: int, aa: int) {
    Honest(rb, d0, ab) && Honest(ra, d1, aa) && 0 <= rb.start && rb.end <= ra.start
  }

  /** Whatever the readings and the timestamp, nothing is accepted. */
  ghost predicate AlwaysRejects(d0: int, d1: int) {
    forall rb, ab, ra, aa, timestamp :: Across(rb, d0, ab, ra, d1, aa) ==>
      Normalize(timestamp, FromReading(rb), FromReading(ra)).None?
  }

  /** Whatever the readings, the guard stays silent. */
  ghost predicate NeverSuspects(d0: int, d1: int) {
    forall rb, ab, ra, aa :: Across(rb, d0, ab, ra, d1, aa) ==> !Suspects(FromReading(rb), FromReading(ra))
  }

  /** What the guard sees of a step is the step within a millisecond. */
  lemma SeenStep(d0: int, d1: int, rb: Reading, ab: int, ra: Reading, aa: int)
    requires Across(rb, d0, ab, ra, d1, aa)
    ensures -MAX_SPREAD <= Offset(FromReading(ra)) - Offset(FromReading(rb)) - (d1 - d0) <= MAX_SPREAD
  {
    OffsetError(rb, d0, ab);
    OffsetError(ra, d1, aa);
  }

  function Abs(x: int): nat {
    if x < 0 then -x else x
  }

  /** Readings as loose as allowed, the wall clock read at one end of each: the guard
      sees a step that is a whole millisecond smaller (`early`), or larger. */
  lemma Skewed(d0: int, d1: int, early: bool) returns (rb: Reading, ab: int, ra: Reading, aa: int)
    ensures Across(rb, d0, ab, ra, d1, aa)
    ensures ra.wall > 0 && FromReading(ra).boot > 0
    ensures Offset(FromReading(ra)) - Offset(FromReading(rb))
         == d1 - d0 + (if early then -MAX_SPREAD else MAX_SPREAD)
  {
    var base := SECOND + Abs(d0) + Abs(d1);
    var later := base + 2 * MAX_SPREAD;
    ab := if early then base + MAX_SPREAD else base;
    aa := if early then later else later + MAX_SPREAD;
    rb := Reading(false, base, ab + d0, base + MAX_SPREAD);
    ra := Reading(false, later, aa + d1, later + MAX_SPREAD);
  }

  /** Exactly when a step is certain to be caught: when it exceeds six milliseconds,
      the guard's five and the millisecond by which the readings may be off. */
  lemma StepAlwaysCaught(d0: int, d1: int)
    ensures AlwaysRejects(d0, d1) <==> Abs(d1 - d0) > MAX_STEP + MAX_SPREAD
  {
    if Abs(d1 - d0) > MAX_STEP + MAX_SPREAD {
      forall rb, ab, ra, aa, timestamp | Across(rb, d0, ab, ra, d1, aa)
        ensures Normalize(timestamp, FromReading(rb), FromReading(ra)).None?
      {
        SeenStep(d0, d1, rb, ab, ra, aa);
      }
    } else {
      var rb, ab, ra, aa := StepMissable(d0, d1);
      assert Normalize(ra.wall, FromReading(rb), FromReading(ra)).Some?;
    }
  }

  /** A step of up to six milliseconds slips through for some readings. */
  lemma StepMissable(d0: int, d1: int) returns (rb: Reading, ab: int, ra: Reading, aa: int)
    requires Abs(d1 - d0) <= MAX_STEP + MAX_SPREAD
    ensures Across(rb, d0, ab, ra, d1, aa)
    ensures Normalize(ra.wall, FromReading(rb), FromReading(ra)).Some?
  {
    if d1 - d0 >= MAX_SPREAD {
      rb, ab, ra, aa := Skewed(d0, d1, true);
    } else if d1 - d0 <= -MAX_SPREAD {
      rb, ab, ra, aa := Skewed(d0, d1, false);
    } else {
      rb, ab, ra, aa := Skewed(d0, d1, true);
    }
  }

  /** Exactly when a step is never suspected: when it is at most four milliseconds. */
  lemma StepNeverSuspected(d0: int, d1: int)
    ensures NeverSuspects(d0, d1) <==> Abs(d1 - d0) <= MAX_STEP - MAX_SPREAD
  {
    if Abs(d1 - d0) <= MAX_STEP - MAX_SPREAD {
      forall rb, ab, ra, aa | Across(rb, d0, ab, ra, d1, aa)
        ensures !Suspects(FromReading(rb), FromReading(ra))
      {
        SeenStep(d0, d1, rb, ab, ra, aa);
      }
    } else {
      var rb, ab, ra, aa := Skewed(d0, d1, d1 < d0);
      assert Suspects(FromReading(rb), FromReading(ra));
    }
  }

  /** A step of six milliseconds that is missed: an event captured at 1.002 s and
      stamped just before the step is dated 5.5 ms early, the most `StepError` allows. */
  lemma SixMillisecondsMissed()
    ensures var rb := Reading(false, 1_000_000_000, 1_001_000_000, 1_001_000_000);
            var ra := Reading(false, 1_002_000_000, 1_008_000_000, 1_003_000_000);
            && Across(rb, 0, 1_001_000_000, ra, 6_000_000, 1_002_000_000)
            && Normalize(1_002_000_000, FromReading(rb), FromReading(ra)) == Some(996_500_000)
  {
  }

  /** What the guard buys all the same: an accepted event that was stamped before the
      step is within five and a half milliseconds of its capture, however large the
      step; one stamped after it is within half a millisecond. */
  lemma StepError(capture: int, d0: int, d1: int, rb: Reading, ab: int, ra: Reading, aa: int)
    requires Across(rb, d0, ab, ra, d1, aa)
    ensures var old_ := Normalize(capture + d0, FromReading(rb), FromReading(ra));
            old_.Some? ==> -5_500_000 <= old_.value - capture <= 5_500_000
    ensures var new_ := Normalize(capture + d1, FromReading(rb), FromReading(ra));
            new_.Some? ==> -500_000 <= new_.value - capture <= 500_000
  {
    OffsetError(rb, d0, ab);
    OffsetError(ra, d1, aa);
  }
}
