/** The NFC transport's filter over RF_DISCOVER_CMD, an NCI control packet
    (section 3.4.1 of the NFC Forum NCI specification): octets 0x21 0x03, the
    payload length, the number of configurations, then (mode, frequency) pairs. */
module Nfc {
  import opened Bytes

  type uint16 = n: int | 0 <= n < 0x1_0000

  /** What the length pointer points to. */
  class LengthCell {
    var value: uint16

    constructor (n: uint16)
      ensures value == n
    {
      value := n;
    }
  }

  datatype Entry = Entry(mode: byte, frequency: byte)

  predicate Unsupported(mode: byte) {
    mode == 0x70 || mode == 0x77 || mode == 0x74 || mode == 0xf4 || mode == 0xff
  }

  // ---- The simple form: packets as lists of configurations ----

  function Supported(es: seq<Entry>): seq<Entry> {
    if es == [] then []
    else
      var front, last := Supported(es[..|es| - 1]), es[|es| - 1];
      if Unsupported(last.mode) then front else front + [last]
  }

  function Body(es: seq<Entry>): (b: seq<byte>)
    ensures |b| == 2 * |es|
  {
    if es == [] then []
    else Body(es[..|es| - 1]) + [es[|es| - 1].mode, es[|es| - 1].frequency]
  }

  /** The payload length has to fit one octet. */
  function Packet(es: seq<Entry>): (p: seq<byte>)
    requires |es| <= 127
  {
    [0x21, 0x03, 1 + 2 * |es|, |es|] + Body(es)
  }

  /** The guards of the filter, over the bytes the length announces. */
  predicate WellFormed(p: seq<byte>) {
    && 4 <= |p| && p[0] == 0x21 && p[1] == 0x03
    && var count: nat := p[3];
       |p| == 4 + 2 * count && p[2] == 1 + 2 * count
  }

  function Entries(p: seq<byte>): (es: seq<Entry>)
    requires WellFormed(p)
    ensures |es| == p[3] <= 127
  {
    seq(p[3], i requires 0 <= i < p[3] => Entry(p[4 + 2 * i], p[5 + 2 * i]))
  }

  /** The filter acts: something is kept and something is dropped. */
  predicate Acts(p: seq<byte>) {
    WellFormed(p) && 0 < |Supported(Entries(p))| < |Entries(p)|
  }

  // ---- Packets and lists of configurations are the same thing ----

  lemma {:induction false} BodyAt(es: seq<Entry>, i: nat)
    requires i < |es|
    ensures Body(es)[2 * i] == es[i].mode && Body(es)[2 * i + 1] == es[i].frequency
  {
    if i < |es| - 1 {
      BodyAt(es[..|es| - 1], i);
    }
  }

  lemma EntriesPacket(es: seq<Entry>)
    requires |es| <= 127
    ensures WellFormed(Packet(es)) && Entries(Packet(es)) == es
  {
    forall i | 0 <= i < |es| ensures Entries(Packet(es))[i] == es[i] {
      BodyAt(es, i);
    }
  }

  lemma PacketEntries(p: seq<byte>)
    requires WellFormed(p)
    ensures Packet(Entries(p)) == p
  {
    var es := Entries(p);
    forall k | 4 <= k < |p| ensures Packet(es)[k] == p[k] {
      BodyAt(es, (k - 4) / 2);
    }
  }

  // ---- What the filter keeps ----

  lemma {:induction false} SupportedMembers(es: seq<Entry>)
    ensures |Supported(es)| <= |es|
    ensures forall e :: e in Supported(es) <==> e in es && e.mode !in {0x70, 0x74, 0x77, 0xf4, 0xff}
    ensures |Supported(es)| == |es| ==> Supported(es) == es
  {
    if es != [] {
      SupportedMembers(es[..|es| - 1]);
      assert es == es[..|es| - 1] + [es[|es| - 1]];
    }
  }

  lemma {:induction false} SupportedAppend(a: seq<Entry>, b: seq<Entry>)
    ensures Supported(a + b) == Supported(a) + Supported(b)
  {
    if b == [] {
      assert a + b == a;
    } else {
      var front := b[..|b| - 1];
      SupportedAppend(a, front);
      assert (a + b)[..|a + b| - 1] == a + front;
    }
  }

  lemma {:induction false} SupportedFixed(es: seq<Entry>)
    requires forall e :: e in es ==> !Unsupported(e.mode)
    ensures Supported(es) == es
  {
    if es != [] {
      SupportedFixed(es[..|es| - 1]);
    }
  }

  /** The filter acts exactly on the well-formed packets that hold something to keep and
      something to drop: it never makes an empty request. */
  lemma ActsExact(p: seq<byte>)
    ensures Acts(p) <==>
              && WellFormed(p)
              && (exists e :: e in Entries(p) && e.mode !in {0x70, 0x74, 0x77, 0xf4, 0xff})
              && (exists e :: e in Entries(p) && e.mode in {0x70, 0x74, 0x77, 0xf4, 0xff})
  {
    if WellFormed(p) {
      var es := Entries(p);
      SupportedMembers(es);
      if Supported(es) != [] {
        assert Supported(es)[0] in Supported(es);
      }
      if e :| e in es && e.mode in {0x70, 0x74, 0x77, 0xf4, 0xff} {
        assert e !in Supported(es);
      } else {
        SupportedFixed(es);
      }
    }
  }

  /** The second call does nothing. */
  lemma FilterSettles(p: seq<byte>)
    requires Acts(p)
    ensures |Supported(Entries(p))| <= 127
    ensures !Acts(Packet(Supported(Entries(p))))
  {
    var kept := Supported(Entries(p));
    SupportedMembers(Entries(p));
    EntriesPacket(kept);
    SupportedFixed(kept);
  }

  // ---- The filter, in place ----

  /** The counting loop. */
  method CountSupported(p: seq<byte>) returns (kept: nat)
    requires WellFormed(p)
    ensures kept == |Supported(Entries(p))|
  {
    ghost var es := Entries(p);
    var count: nat := p[3];
    kept := 0;
    for i := 0 to count
      invariant kept == |Supported(es[..i])|
    {
      assert es[..i + 1][..i] == es[..i];
      if !Unsupported(p[4 + 2 * i]) {
        kept := kept + 1;
      }
    }
    assert es[..count] == es;
  }

  /** The bytes of the supported entries among the first n of a buffer. */
  function KeptBytes(was: seq<byte>, n: nat): (b: seq<byte>)
    requires 4 + 2 * n <= |was|
    ensures |b| <= 2 * n
  {
    if n == 0 then []
    else if Unsupported(was[2 + 2 * n]) then KeptBytes(was, n - 1)
    else KeptBytes(was, n - 1) + [was[2 + 2 * n], was[3 + 2 * n]]
  }

  lemma BodySnoc(es: seq<Entry>, e: Entry)
    ensures Body(es + [e]) == Body(es) + [e.mode, e.frequency]
  {
    assert (es + [e])[..|es|] == es;
  }

  lemma {:induction false} KeptBytesAreBody(was: seq<byte>, es: seq<Entry>)
    requires 4 + 2 * |es| <= |was|
    requires forall i :: 0 <= i < |es| ==> es[i] == Entry(was[4 + 2 * i], was[5 + 2 * i])
    ensures KeptBytes(was, |es|) == Body(Supported(es))
  {
    if es != [] {
      var front, last := es[..|es| - 1], es[|es| - 1];
      KeptBytesAreBody(was, front);
      assert last == Entry(was[2 + 2 * |es|], was[3 + 2 * |es|]);
      BodySnoc(Supported(front), last);
    }
  }

  lemma KeptBytesOfPacket(was: seq<byte>, p: seq<byte>)
    requires WellFormed(p) && p <= was
    ensures |Supported(Entries(p))| <= p[3]
    ensures KeptBytes(was, p[3]) == Body(Supported(Entries(p)))
  {
    var es := Entries(p);
    SupportedMembers(es);
    assert forall k :: 0 <= k < |p| ==> p[k] == was[k];
    KeptBytesAreBody(was, es);
  }

  /** The compacting loop: reads stay ahead of writes. */
  method CompactEntries(command: array<byte>, count: nat) returns (output: nat)
    requires 4 + 2 * count <= command.Length
    modifies command
    ensures output == 4 + |KeptBytes(old(command[..]), count)|
    ensures forall k :: 4 <= k < output ==> command[k] == KeptBytes(old(command[..]), count)[k - 4]
    ensures forall k :: 0 <= k < 4 || output <= k < command.Length ==> command[k] == old(command[..])[k]
  {
    ghost var was := command[..];
    ghost var kept: seq<byte> := [];
    output := 4;
    for i := 0 to count
      invariant kept == KeptBytes(was, i)
      invariant output == 4 + |kept|
      invariant forall k :: 4 <= k < output ==> command[k] == kept[k - 4]
      invariant forall k :: 0 <= k < 4 || output <= k < command.Length ==> command[k] == was[k]
    {
      var input := 4 + 2 * i;
      if !Unsupported(command[input]) {
        kept := kept + [was[input], was[input + 1]];
        command[output] := command[input];
        command[output + 1] := command[input + 1];
        output := output + 2;
      }
    }
  }

  lemma Assembled(was: seq<byte>, now: seq<byte>, body: seq<byte>)
    requires 4 + |body| <= |now| == |was|
    requires forall k :: 4 <= k < 4 + |body| ==> now[k] == body[k - 4]
    requires forall k :: 4 + |body| <= k < |now| ==> now[k] == was[k]
    ensures now[..4 + |body|] == [now[0], now[1], now[2], now[3]] + body
    ensures now[4 + |body|..] == was[4 + |body|..]
  {
  }

  /** Compaction, then the two counts and the length. */
  method Rewrite(length: LengthCell, command: array<byte>, count: nat, kept: nat)
    requires 4 + 2 * count <= command.Length && count <= 127
    requires 2 * kept == |KeptBytes(command[..], count)|
    modifies length, command
    ensures length.value == 4 + 2 * kept <= command.Length
    ensures command[..length.value]
         == [old(command[0]), old(command[1]), 1 + 2 * kept, kept] + KeptBytes(old(command[..]), count)
    ensures command[length.value..] == old(command[..])[length.value..]
  {
    ghost var was := command[..];
    var output := CompactEntries(command, count);
    command[2] := 1 + 2 * kept;
    command[3] := kept;
    length.value := output;
    Assembled(was, command[..], KeptBytes(was, count));
  }

  /** m86FilterDiscovery.  A caller only owes a buffer that holds the bytes it
      announces. */
  method FilterDiscovery(length: LengthCell?, command: array?<byte>) returns (changed: bool)
    requires length != null && command != null ==> length.value <= command.Length
    modifies length, command
    ensures changed <==>
      length != null && command != null && Acts(old(command[..length.value]))
    ensures !changed ==>
      && (length != null ==> length.value == old(length.value))
      && (command != null ==> command[..] == old(command[..]))
    ensures changed ==>
      var kept := Supported(Entries(old(command[..length.value])));
      && |kept| <= 127
      && length.value == |Packet(kept)| < old(length.value)
      && command[..length.value] == Packet(kept)
      && command[length.value..] == old(command[..])[length.value..]
  {
    if length == null || command == null {
      return false;
    }
    ghost var p := command[..length.value];
    if length.value < 4 || command[0] != 0x21 || command[1] != 0x03 {
      return false;
    }
    var count: nat := command[3];
    if length.value != 4 + 2 * count || command[2] != 1 + 2 * count {
      return false;
    }
    var kept := CountSupported(command[..length.value]);
    if kept == 0 || kept == count {
      return false;
    }
    KeptBytesOfPacket(command[..], p);
    Rewrite(length, command, count, kept);
    assert command[..length.value] == Packet(Supported(Entries(p)));
    return true;
  }

  /** Calling the filter again never changes anything, whatever the first call did. */
  method FilterTwice(length: LengthCell?, command: array?<byte>) returns (first: bool, second: bool)
    requires length != null && command != null ==> length.value <= command.Length
    modifies length, command
    ensures !second
    ensures first <==> length != null && command != null && Acts(old(command[..length.value]))
    ensures first ==>
      && |Supported(Entries(old(command[..length.value])))| <= 127
      && length.value <= command.Length
      && command[..length.value] == Packet(Supported(Entries(old(command[..length.value]))))
  {
    ghost var p := if length != null && command != null then command[..length.value] else [];
    first := FilterDiscovery(length, command);
    if first {
      FilterSettles(p);
    } else if length != null && command != null {
      assert command[..length.value] == p;
    }
    second := FilterDiscovery(length, command);
  }
}
