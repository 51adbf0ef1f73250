/** The flattened-devicetree walker and its in-place patch: the format of sections
    5.2 (header), 5.4 (structure block) and 5.5 (strings block) of the Devicetree
    Specification v0.4, as far as the tool reads it. */
module Fdt {
  import opened Bytes

  datatype Error = Truncated | NotFdt | BadTotalSize | BlocksExceedTotal | Unterminated | NotAscii
                 | UnbalancedEnd | BadPropertyHeader | BadNameOffset | PropertyTooLong | SecureModeNotEmpty
                 | OpenNodes | UnknownToken | NoEnd
                 | HashMismatch | ContractBroken | NotExactlyOne | SecureModeKept | FpcChanged | WrongFootprint

  datatype Result<T> = Ok(value: T) | Err(error: Error)

  const MAGIC := 0xD00D_FEED
  const BEGIN_NODE := 1
  const END_NODE := 2
  const PROP := 3
  const NOP := 4
  const END := 9
  const HEADER_SIZE := 40
  const SPI_PATH := "/spi@14d70000"
  const FPC_PATH := "/spi@14d70000/securefpc_spidev@0"
  const SECURE_MODE := "secure-mode"
  const NOPS: seq<byte> := [0, 0, 0, 4, 0, 0, 0, 4, 0, 0, 0, 4]

  /** Big-endian 32-bit word. */
  function Word(blob: seq<byte>, at: nat): nat
    requires at + 4 <= |blob|
  {
    blob[at] as int * 0x100_0000 + blob[at + 1] as int * 0x1_0000 + blob[at + 2] as int * 0x100 + blob[at + 3] as int
  }

  function Align4(value: nat): (r: nat)
    ensures value <= r < value + 4 && r % 4 == 0
  {
    (value + 3) / 4 * 4
  }

  function FindNul(blob: seq<byte>, from: nat, limit: nat): (r: int)
    requires limit <= |blob|
    ensures r == -1 || (from <= r < limit && blob[r] == 0 && forall i :: from <= i < r ==> blob[i] != 0)
    ensures r == -1 ==> forall i :: from <= i < limit ==> blob[i] != 0
    decreases limit - from
  {
    if from >= limit then -1
    else if blob[from] == 0 then from
    else FindNul(blob, from + 1, limit)
  }

  predicate Ascii(bs: seq<byte>) {
    forall i :: 0 <= i < |bs| ==> bs[i] < 128
  }

  function Text(bs: seq<byte>): string
    requires Ascii(bs)
  {
    seq(|bs|, i requires 0 <= i < |bs| => bs[i] as char)
  }

  function CString(blob: seq<byte>, from: nat, limit: nat): (r: Result<string>)
    requires limit <= |blob|
    ensures r.Ok? ==> from + |r.value| < limit
  {
    var end := FindNul(blob, from, limit);
    if end < 0 then Err(Unterminated)
    else if !Ascii(blob[from..end]) then Err(NotAscii)
    else Ok(Text(blob[from..end]))
  }

  datatype Header = Header(totalSize: nat, structStart: nat, stringsStart: nat, stringsSize: nat, structSize: nat) {
    function StructEnd(): nat { structStart + structSize }
    function StringsEnd(): nat { stringsStart + stringsSize }

    predicate Fits(blob: seq<byte>) {
      StructEnd() <= totalSize && StringsEnd() <= totalSize && HEADER_SIZE <= totalSize <= |blob|
    }

    /** The structure block overlaps neither the header nor the strings block. */
    predicate Disjoint() {
      && HEADER_SIZE <= structStart
      && (StringsEnd() <= structStart || StructEnd() <= stringsStart)
    }
  }

  function ParseHeader(blob: seq<byte>): Result<Header> {
    if |blob| < HEADER_SIZE then Err(Truncated)
    else if Word(blob, 0) != MAGIC then Err(NotFdt)
    else
      var total := Word(blob, 4);
      if total > |blob| || total < HEADER_SIZE then Err(BadTotalSize)
      else Ok(Header(total, Word(blob, 8), Word(blob, 12), Word(blob, 32), Word(blob, 36)))
  }

  /** One property as the walk meets it; `at` is where its token starts. */
  datatype Property = Property(at: nat, path: string, name: string, value: seq<byte>)

  /** The property to patch away, if any. */
  datatype Patch = Nothing | Remove(path: string, name: string)

  predicate IsTarget(patch: Patch, p: Property) {
    patch.Remove? && p.path == patch.path && p.name == patch.name
  }

  /** The named nodes, each after a slash, and then without the first slash. */
  function Joined(nodes: seq<string>): string {
    if nodes == [] then ""
    else
      var before := Joined(nodes[..|nodes| - 1]);
      var last := nodes[|nodes| - 1];
      if last == "" then before else if before == "" then last else before + "/" + last
  }

  function Path(nodes: seq<string>): string {
    "/" + Joined(nodes)
  }

  /** What one token does: end the walk, or go on elsewhere with what it found. */
  datatype Move = Stop(result: Result<seq<Property>>)
                | Go(next: nat, nodes: seq<string>, found: seq<Property>)

  function Token(blob: seq<byte>, h: Header, offset: nat, nodes: seq<string>, patch: Patch): (m: Move)
    requires h.Fits(blob)
    ensures m.Go? ==> offset + 4 <= h.StructEnd() && offset + 4 <= m.next
    ensures m.Go? ==>
      || m.found == []
      || (|m.found| == 1 && m.found[0].at == offset && offset + 12 <= m.next && offset + 12 <= h.StructEnd())
    ensures m.Stop? && m.result.Ok? ==> m.result.value == []
  {
    if offset + 4 > h.StructEnd() then Stop(Err(NoEnd))
    else
      var token := Word(blob, offset);
      if token == BEGIN_NODE then
        var name := CString(blob, offset + 4, h.StructEnd());
        if name.Err? then Stop(Err(name.error))
        else Go(Align4(offset + 4 + |name.value| + 1), nodes + [name.value], [])
      else if token == END_NODE then
        if nodes == [] then Stop(Err(UnbalancedEnd)) else Go(offset + 4, nodes[..|nodes| - 1], [])
      else if token == PROP then
        var p := ReadProperty(blob, h, offset, nodes, patch);
        if p.Err? then Stop(Err(p.error))
        else Go(Align4(offset + 12 + |p.value.value|), nodes, [p.value])
      else if token == NOP then Go(offset + 4, nodes, [])
      else if token == END then Stop(if nodes != [] then Err(OpenNodes) else Ok([]))
      else Stop(Err(UnknownToken))
  }

  /** The ordered properties from `offset` on, inside the open `nodes`. */
  function Walk(blob: seq<byte>, h: Header, offset: nat, nodes: seq<string>, patch: Patch): Result<seq<Property>>
    requires h.Fits(blob)
    decreases h.StructEnd() - offset
  {
    match Token(blob, h, offset, nodes, patch)
    case Stop(result) => result
    case Go(next, inside, found) =>
      var rest := Walk(blob, h, next, inside, patch);
      if rest.Ok? then Ok(found + rest.value) else rest
  }

  function ReadProperty(blob: seq<byte>, h: Header, offset: nat, nodes: seq<string>, patch: Patch)
    : (r: Result<Property>)
    requires h.Fits(blob) && offset + 4 <= h.StructEnd()
    ensures r.Ok? ==>
      && r.value.at == offset
      && offset + 12 + |r.value.value| <= h.StructEnd()
      && |r.value.value| == Word(blob, offset + 4)
      && CString(blob, h.stringsStart + Word(blob, offset + 8), h.StringsEnd()) == Ok(r.value.name)
      && nodes != []
      && (IsTarget(patch, r.value) ==> r.value.value == [])
  {
    if offset + 12 > h.StructEnd() || nodes == [] then Err(BadPropertyHeader)
    else
      var length := Word(blob, offset + 4);
      var nameOffset := Word(blob, offset + 8);
      if nameOffset >= h.stringsSize then Err(BadNameOffset)
      else
        var name := CString(blob, h.stringsStart + nameOffset, h.StringsEnd());
        if name.Err? then Err(name.error)
        else if offset + 12 + length > h.StructEnd() then Err(PropertyTooLong)
        else
          var p := Property(offset, Path(nodes), name.value, blob[offset + 12..offset + 12 + length]);
          if IsTarget(patch, p) && length != 0 then Err(SecureModeNotEmpty) else Ok(p)
  }

  // ---- the patch

  function Nop3(bs: seq<byte>, at: nat): (r: seq<byte>)
    requires at + 12 <= |bs|
    ensures |r| == |bs|
    ensures forall i :: 0 <= i < |bs| ==> r[i] == if at <= i < at + 12 then NOPS[i - at] else bs[i]
  {
    bs[..at] + NOPS + bs[at + 12..]
  }

  function NopAll(bs: seq<byte>, at: seq<nat>): (r: seq<byte>)
    requires forall i :: 0 <= i < |at| ==> at[i] + 12 <= |bs|
    ensures |r| == |bs|
  {
    if at == [] then bs else Nop3(NopAll(bs, at[..|at| - 1]), at[|at| - 1])
  }

  function Targets(patch: Patch, ps: seq<Property>): (r: seq<nat>)
    ensures forall o :: o in r <==> exists i :: 0 <= i < |ps| && ps[i].at == o && IsTarget(patch, ps[i])
  {
    if ps == [] then []
    else
      var last := ps[|ps| - 1];
      Targets(patch, ps[..|ps| - 1]) + (if IsTarget(patch, last) then [last.at] else [])
  }

  /** The stream without the patched property. */
  function Kept(patch: Patch, ps: seq<Property>): seq<Property> {
    if ps == [] then []
    else (if IsTarget(patch, ps[0]) then [] else [ps[0]]) + Kept(patch, ps[1..])
  }

  /** The dictionary of dictionaries: a later property of the same name wins. */
  type Dictionary = map<string, map<string, seq<byte>>>

  function Lookup(d: Dictionary, path: string): map<string, seq<byte>> {
    if path in d then d[path] else map[]
  }

  function Insert(d: Dictionary, p: Property): Dictionary {
    d[p.path := Lookup(d, p.path)[p.name := p.value]]
  }

  function Dict(ps: seq<Property>): Dictionary {
    if ps == [] then map[] else Insert(Dict(ps[..|ps| - 1]), ps[|ps| - 1])
  }

  datatype Tree = Tree(output: seq<byte>, properties: seq<Property>, dict: Dictionary, patched: seq<nat>)

  function ReadTree(blob: seq<byte>, patch: Patch): Result<Tree> {
    var h := ParseHeader(blob);
    if h.Err? then Err(h.error)
    else if h.value.StructEnd() > h.value.totalSize || h.value.StringsEnd() > h.value.totalSize then
      Err(BlocksExceedTotal)
    else
      var ps := Walk(blob, h.value, h.value.structStart, [], patch);
      if ps.Err? then Err(ps.error)
      else
        WalkInBlock(blob, h.value, h.value.structStart, [], patch);
        TargetsInBlock(patch, ps.value, h.value.structStart, h.value.StructEnd());
        var at := Targets(patch, ps.value);
        Ok(Tree(NopAll(blob[..h.value.totalSize], at), ps.value, Dict(ps.value), at))
  }

  /** The properties come in order, do not overlap, and lie between the bounds. */
  ghost predicate InBlock(ps: seq<Property>, from: nat, to: nat) {
    && (forall i :: 0 <= i < |ps| ==> from <= ps[i].at && ps[i].at + 12 <= to)
    && (forall i, j :: 0 <= i < j < |ps| ==> ps[i].at + 12 <= ps[j].at)
  }

  lemma InBlockAppend(found: seq<Property>, rest: seq<Property>, from: nat, next: nat, to: nat)
    requires from <= next && InBlock(rest, next, to)
    requires found == [] || (|found| == 1 && found[0].at == from && from + 12 <= next && from + 12 <= to)
    ensures InBlock(found + rest, from, to)
  {
    var all := found + rest;
    assert forall i :: |found| <= i < |all| ==> all[i] == rest[i - |found|];
  }

  lemma {:induction false} WalkInBlock(blob: seq<byte>, h: Header, offset: nat, nodes: seq<string>, patch: Patch)
    requires h.Fits(blob)
    ensures var r := Walk(blob, h, offset, nodes, patch);
            r.Ok? ==> InBlock(r.value, offset, h.StructEnd())
    decreases h.StructEnd() - offset
  {
    match Token(blob, h, offset, nodes, patch)
    case Stop(_) =>
    case Go(next, inside, found) =>
      WalkInBlock(blob, h, next, inside, patch);
      var rest := Walk(blob, h, next, inside, patch);
      if rest.Ok? {
        InBlockAppend(found, rest.value, offset, next, h.StructEnd());
      }
  }

  lemma TargetsInBlock(patch: Patch, ps: seq<Property>, from: nat, to: nat)
    requires InBlock(ps, from, to)
    ensures forall i :: 0 <= i < |Targets(patch, ps)| ==>
              from <= Targets(patch, ps)[i] && Targets(patch, ps)[i] + 12 <= to
  {
    forall i | 0 <= i < |Targets(patch, ps)| ensures from <= Targets(patch, ps)[i] && Targets(patch, ps)[i] + 12 <= to {
      assert Targets(patch, ps)[i] in Targets(patch, ps);
    }
  }
}
