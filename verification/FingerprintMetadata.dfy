/** The metadata record and how it reaches the disk: exact reads and writes over
    system calls that transfer less than asked or are interrupted, and a save that
    replaces the old record by a rename.  A script gives the outcome of each system
    call; a process that is killed is a script that ends. */
module FingerprintMetadata {
  import opened Wrappers
  import opened Bytes
  import opened FingerprintSpec

  const MAGIC := 0x4d38_3646
  const VERSION := 1
  const RECORD_SIZE := 24
  const U32 := 0x1_0000_0000
  const U64 := 0x1_0000_0000_0000_0000

  // ---- the record

  /** Little-endian bytes of `n`. */
  function Encode(n: nat, width: nat): (r: seq<byte>)
    ensures |r| == width
  {
    if width == 0 then [] else [n % 256] + Encode(n / 256, width - 1)
  }

  function Decode(bs: seq<byte>): nat {
    if bs == [] then 0 else bs[0] + 256 * Decode(bs[1..])
  }

  function Power256(width: nat): nat {
    if width == 0 then 1 else 256 * Power256(width - 1)
  }

  lemma {:induction false} DecodeEncode(n: nat, width: nat)
    requires n < Power256(width)
    ensures Decode(Encode(n, width)) == n
  {
    if width > 0 {
      DecodeEncode(n / 256, width - 1);
      assert Encode(n, width)[1..] == Encode(n / 256, width - 1);
    }
  }

  lemma Widths()
    ensures Power256(4) == U32 && Power256(8) == U64
  {
    assert Power256(2) == 0x1_0000;
    assert Power256(4) == U32;
    assert Power256(6) == 0x1_0000_0000_0000;
  }

  function RecordBytes(user: nat, auth: nat): (r: seq<byte>)
    ensures |r| == RECORD_SIZE
  {
    Encode(MAGIC, 4) + Encode(VERSION, 4) + Encode(user, 8) + Encode(auth, 8)
  }

  /** What the bytes of a whole record say. */
  function ParseRecord(bs: seq<byte>): Metadata
    requires |bs| == RECORD_SIZE
  {
    if Decode(bs[..4]) != MAGIC || Decode(bs[4..8]) != VERSION then Unreadable
    else Record(Decode(bs[8..16]), Decode(bs[16..24]))
  }

  lemma RecordRoundTrip(user: nat, auth: nat)
    requires user < U64 && auth < U64
    ensures ParseRecord(RecordBytes(user, auth)) == Record(user, auth)
  {
    var bs := RecordBytes(user, auth);
    assert bs[..4] == Encode(MAGIC, 4) && bs[4..8] == Encode(VERSION, 4);
    var front := Encode(MAGIC, 4) + Encode(VERSION, 4);
    assert bs == front + Encode(user, 8) + Encode(auth, 8);
    assert bs[8..16] == Encode(user, 8);
    assert bs[16..24] == bs[16..] == Encode(auth, 8);
    Widths();
    DecodeEncode(MAGIC, 4);
    DecodeEncode(VERSION, 4);
    DecodeEncode(user, 8);
    DecodeEncode(auth, 8);
  }

  lemma {:induction false} EncodeDecode(bs: seq<byte>)
    ensures Decode(bs) < Power256(|bs|) && Encode(Decode(bs), |bs|) == bs
  {
    if bs != [] {
      EncodeDecode(bs[1..]);
    }
  }

  /** A record is read as these ids exactly when it is the record of these ids: any other
      magic, version or length of value is unreadable. */
  lemma RecordExact(bs: seq<byte>, user: nat, auth: nat)
    requires |bs| == RECORD_SIZE
    ensures ParseRecord(bs) == Record(user, auth) <==> user < U64 && auth < U64 && bs == RecordBytes(user, auth)
  {
    if ParseRecord(bs) == Record(user, auth) {
      Widths();
      EncodeDecode(bs[..4]);
      EncodeDecode(bs[4..8]);
      EncodeDecode(bs[8..16]);
      EncodeDecode(bs[16..24]);
      assert bs == bs[..4] + bs[4..8] + bs[8..16] + bs[16..24];
    } else if user < U64 && auth < U64 {
      RecordRoundTrip(user, auth);
    }
  }

  // ---- system calls

  datatype Outcome = Interrupted | Failed | Count(n: nat)

  datatype IoStatus = Done | IoFailed | Killed

  /** No call fails outright: each is interrupted or transfers something. */
  predicate Benign(script: seq<Outcome>) {
    forall i :: 0 <= i < |script| ==> script[i].Interrupted? || (script[i].Count? && script[i].n > 0)
  }

  function Transfers(script: seq<Outcome>): nat {
    if script == [] then 0
    else (if script[0].Count? && script[0].n > 0 then 1 else 0) + Transfers(script[1..])
  }

  function Min(a: nat, b: nat): nat {
    if a < b then a else b
  }

  /** Whatever the short reads and interruptions, a read that completes gives the
      first bytes of the file; enough benign calls complete it. */
  method ReadExact(file: seq<byte>, length: nat, script: seq<Outcome>)
    returns (status: IoStatus, buffer: seq<byte>, rest: seq<Outcome>)
    ensures buffer <= file && |buffer| <= length
    ensures status.Done? ==> |buffer| == length
    ensures Benign(script) && Transfers(script) >= length && |file| >= length ==> status.Done?
  {
    buffer, rest := [], script;
    while |buffer| < length
      invariant buffer <= file && |buffer| <= length
      invariant Benign(script) && Transfers(script) >= length ==>
        Benign(rest) && Transfers(rest) >= length - |buffer|
      decreases rest
    {
      if rest == [] { return Killed, buffer, rest; }
      var outcome := rest[0];
      rest := rest[1..];
      match outcome {
        case Interrupted =>
        case Failed => return IoFailed, buffer, rest;
        case Count(n) =>
          var count := Min(n, Min(length - |buffer|, |file| - |buffer|));
          if count == 0 { return IoFailed, buffer, rest; }
          buffer := buffer + file[|buffer|..|buffer| + count];
      }
    }
    status := Done;
  }

  /** Where the script stands once `n` bytes went out, past interruptions and short
      writes; nothing if a call fails, writes nothing, or the script ends before. */
  function Wrote(script: seq<Outcome>, n: nat): Option<seq<Outcome>> {
    if n == 0 then Some(script)
    else if script == [] then None
    else
      match script[0]
      case Interrupted => Wrote(script[1..], n)
      case Failed => None
      case Count(k) => if k == 0 then None else Wrote(script[1..], n - Min(k, n))
  }

  /** Enough benign calls write everything, however they are interrupted; `used` is
      how many of them it takes. */
  lemma {:induction false} BenignWrites(script: seq<Outcome>, n: nat) returns (used: nat)
    requires Benign(script) && Transfers(script) >= n
    ensures used <= |script| && Wrote(script[..used], n) == Some([])
    decreases script
  {
    used := 0;
    if n > 0 {
      assert script != [];
      match script[0] {
        case Interrupted => used := BenignWrites(script[1..], n);
        case Count(k) => used := BenignWrites(script[1..], n - Min(k, n));
      }
      used := used + 1;
      assert script[..used][0] == script[0] && script[..used][1..] == script[1..][..used - 1];
    }
  }

  /** The file grows by a prefix of the data, and by all of it when the write completes. */
  method WriteExact(data: seq<byte>, script: seq<Outcome>)
    returns (status: IoStatus, written: seq<byte>, rest: seq<Outcome>)
    ensures written <= data
    ensures status.Done? ==> written == data
    ensures |rest| <= |script|
    ensures Benign(script) && Transfers(script) >= |data| ==> status.Done?
    ensures Wrote(script, |data|) == if status.Done? then Some(rest) else None
  {
    written, rest := [], script;
    while |written| < |data|
      invariant written <= data && |rest| <= |script|
      invariant Benign(script) && Transfers(script) >= |data| ==>
        Benign(rest) && Transfers(rest) >= |data| - |written|
      invariant Wrote(script, |data|) == Wrote(rest, |data| - |written|)
      decreases rest
    {
      if rest == [] { return Killed, written, rest; }
      var outcome := rest[0];
      rest := rest[1..];
      match outcome {
        case Interrupted =>
        case Failed => return IoFailed, written, rest;
        case Count(n) =>
          var count := Min(n, |data| - |written|);
          if count == 0 { return IoFailed, written, rest; }
          written := written + data[|written|..|written| + count];
      }
    }
    status := Done;
  }

  // ---- saving and loading

  /** The record's file and the temporary beside it. */
  datatype Disk = Disk(record: Option<seq<byte>>, temporary: Option<seq<byte>>)

  /** The file opens, the record goes out past any interruptions and short writes, and
      then the sync, the close and the rename work; these three are not retried. */
  predicate SaveCompletes(script: seq<Outcome>) {
    && script != [] && script[0].Count?
    && var rest := Wrote(script[1..], RECORD_SIZE);
       rest.Some? && |rest.value| >= 3 && forall i :: 0 <= i < 3 ==> rest.value[i].Count?
  }

  /** However it ends, and wherever it is killed, the record's file holds the whole
      old record or the whole new one; it holds the new one when the save succeeds
      and the old one when it fails. */
  method Save(disk: Disk, user: nat, auth: nat, script: seq<Outcome>) returns (status: IoStatus, after: Disk)
    ensures after.record == disk.record || after.record == Some(RecordBytes(user, auth))
    ensures status.Done? ==> after.record == Some(RecordBytes(user, auth)) && after.temporary.None?
    ensures status.IoFailed? ==> after.record == disk.record
    ensures status.Done? <==> SaveCompletes(script)
  {
    after := disk;
    if script == [] { return Killed, after; }
    if !script[0].Count? { return IoFailed, after; }
    after := after.(temporary := Some([]));
    var written, rest;
    status, written, rest := WriteExact(RecordBytes(user, auth), script[1..]);
    after := after.(temporary := Some(written));
    if status.Killed? { return; }
    if status.Done? {
      if rest == [] { return Killed, after; }
      if !rest[0].Count? { status := IoFailed; }
      rest := rest[1..];
    }
    if rest == [] { return Killed, after; }
    if !rest[0].Count? && status.Done? { status := IoFailed; }
    rest := rest[1..];
    if status.Done? {
      if rest == [] { return Killed, after; }
      if rest[0].Count? {
        after := Disk(after.temporary, None);
      } else {
        status := IoFailed;
      }
      rest := rest[1..];
    }
    if status.IoFailed? {
      if rest == [] { return Killed, after; }
      if rest[0].Count? { after := after.(temporary := None); }
    }
  }

  /** A missing file is no metadata; anything but a whole valid record is unreadable. */
  method Load(disk: Disk, script: seq<Outcome>) returns (status: IoStatus, meta: Metadata)
    ensures status.Done? ==> (meta == NoFile <==> disk.record.None?)
    ensures status.Done? && meta.Record? ==>
              disk.record.Some? && |disk.record.value| >= RECORD_SIZE
              && meta == ParseRecord(disk.record.value[..RECORD_SIZE])
    ensures LoadCompletes(script) && disk.record.Some? && |disk.record.value| >= RECORD_SIZE
            ==> status.Done? && meta == ParseRecord(disk.record.value[..RECORD_SIZE])
  {
    meta := Unreadable;
    if script == [] { return Killed, meta; }
    if disk.record.None? { return Done, NoFile; }
    if !script[0].Count? { return Done, Unreadable; }
    var buffer, rest;
    status, buffer, rest := ReadExact(disk.record.value, RECORD_SIZE, script[1..]);
    if status.Killed? { return; }
    if status.IoFailed? { return Done, Unreadable; }
    assert buffer == disk.record.value[..RECORD_SIZE];
    meta := ParseRecord(buffer);
  }

  /** A load that completes: the file opens and benign reads cover the record. */
  predicate LoadCompletes(script: seq<Outcome>) {
    && script != [] && script[0].Count?
    && Benign(script[1..]) && Transfers(script[1..]) >= RECORD_SIZE
  }

  /** A record that was saved is the record that is loaded, through any short reads,
      short writes and interruptions on the way. */
  method SaveThenLoad(disk: Disk, user: nat, auth: nat, saving: seq<Outcome>, loading: seq<Outcome>)
    returns (saved: IoStatus, loaded: IoStatus, meta: Metadata)
    requires user < U64 && auth < U64
    ensures saved.Done? <==> SaveCompletes(saving)
    ensures saved.Done? && loaded.Done? ==> meta == Record(user, auth) || meta == Unreadable
    ensures SaveCompletes(saving) && LoadCompletes(loading) ==> loaded.Done? && meta == Record(user, auth)
  {
    var after;
    saved, after := Save(disk, user, auth, saving);
    RecordRoundTrip(user, auth);
    loaded, meta := Load(after, loading);
    if saved.Done? {
      assert after.record.value[..RECORD_SIZE] == RecordBytes(user, auth);
    }
  }

  /** A save whose writes are interrupted or cut short any number of times completes
      all the same, once enough of them got through. */
  lemma InterruptedSaveCompletes(writes: seq<Outcome>) returns (used: nat)
    requires Benign(writes) && Transfers(writes) >= RECORD_SIZE
    ensures used <= |writes|
    ensures SaveCompletes([Count(1)] + writes[..used] + [Count(1), Count(1), Count(1)])
  {
    used := BenignWrites(writes, RECORD_SIZE);
    var tail := [Count(1), Count(1), Count(1)];
    var script := [Count(1)] + writes[..used] + tail;
    assert script[1..] == writes[..used] + tail;
    WroteThenTail(writes[..used], tail, RECORD_SIZE);
  }

  /** Calls after the last one a write needs are left as they are. */
  lemma {:induction false} WroteThenTail(script: seq<Outcome>, tail: seq<Outcome>, n: nat)
    requires Wrote(script, n).Some?
    ensures Wrote(script + tail, n) == Some(Wrote(script, n).value + tail)
    decreases script
  {
    if n > 0 {
      assert (script + tail)[0] == script[0] && (script + tail)[1..] == script[1..] + tail;
      match script[0]
      case Interrupted => WroteThenTail(script[1..], tail, n);
      case Count(k) => WroteThenTail(script[1..], tail, n - Min(k, n));
    }
  }

  /** A group change after a save brings back the ids that were saved: the user id always,
      the authenticator id while there is a template. */
  method SaveThenSetGroup(disk: Disk, user: nat, auth: nat, saving: seq<Outcome>, loading: seq<Outcome>,
                          d: Device, gid: nat, found: seq<Discovered>, e: RotateEnv)
    returns (after: Data, status: FingerprintSpec.Status)
    requires user < U64 && auth < U64 && SaveCompletes(saving) && LoadCompletes(loading) && !d.slot.active
    ensures after.gid == gid && after.templates == Loaded(found) && after.userId == user
    ensures after.authenticatorId == if Loaded(found) == [] then 0 else if auth != 0 then auth else e.random
    ensures Loaded(found) == [] || auth != 0 ==> status == Success
  {
    var saved, loaded, meta := SaveThenLoad(disk, user, auth, saving, loading);
    GroupExact(d, gid, true, found, meta, e);
    var r := SetGroup(d, gid, true, found, meta, e);
    after, status := r.0, r.1;
  }
}
