/** The tool itself: the reading loop, what the patched blob means when it is read
    again, the footprint of the patch, and exactly when main succeeds. */
module FdtTool {
  import opened Bytes
  import opened Fdt
  import opened FdtPatch

  // ---- the loop

  function Extend(ps: seq<Property>, r: Result<seq<Property>>): Result<seq<Property>> {
    if r.Ok? then Ok(ps + r.value) else r
  }

  lemma ExtendGo(blob: seq<byte>, h: Header, offset: nat, nodes: seq<string>, patch: Patch, ps: seq<Property>, m: Move)
    requires h.Fits(blob) && Token(blob, h, offset, nodes, patch) == m && m.Go?
    ensures Extend(ps, Walk(blob, h, offset, nodes, patch))
            == Extend(ps + m.found, Walk(blob, h, m.next, m.nodes, patch))
  {
    ExtendTwice(ps, m.found, Walk(blob, h, m.next, m.nodes, patch));
  }

  lemma ExtendTwice(a: seq<Property>, b: seq<Property>, r: Result<seq<Property>>)
    ensures Extend(a, Extend(b, r)) == Extend(a + b, r)
  {
    if r.Ok? {
      assert a + (b + r.value) == (a + b) + r.value;
    }
  }

  lemma TargetsSnoc(patch: Patch, ps: seq<Property>, p: Property)
    ensures Targets(patch, ps + [p]) == Targets(patch, ps) + (if IsTarget(patch, p) then [p.at] else [])
    ensures Dict(ps + [p]) == Insert(Dict(ps), p)
  {
    assert (ps + [p])[..|ps|] == ps;
  }

  method WriteNops(output: array<byte>, at: nat)
    requires at + 12 <= output.Length
    modifies output
    ensures output[..] == Nop3(old(output[..]), at)
  {
    var i := at;
    while i < at + 12
      invariant at <= i <= at + 12 && (i - at) % 4 == 0
      invariant forall k :: 0 <= k < output.Length ==>
        output[k] == if at <= k < i then NOPS[k - at] else old(output[k])
    {
      output[i], output[i + 1], output[i + 2], output[i + 3] := 0, 0, 0, 4;
      i := i + 4;
    }
  }

  /** The dictionary, the patched offsets and the output say what was found so far. */
  ghost predicate Noted(base: seq<byte>, output: seq<byte>, patch: Patch,
                        ps: seq<Property>, dict: Dictionary, patched: seq<nat>) {
    && patched == Targets(patch, ps)
    && dict == Dict(ps)
    && (forall i :: 0 <= i < |patched| ==> patched[i] + 12 <= |base|)
    && output == NopAll(base, patched)
  }

  method Note(ghost base: seq<byte>, output: array<byte>, patch: Patch,
              ps: seq<Property>, dict: Dictionary, patched: seq<nat>, p: Property)
    returns (dict': Dictionary, patched': seq<nat>)
    requires Noted(base, output[..], patch, ps, dict, patched) && p.at + 12 <= output.Length
    modifies output
    ensures Noted(base, output[..], patch, ps + [p], dict', patched')
  {
    TargetsSnoc(patch, ps, p);
    dict' := Insert(dict, p);
    if IsTarget(patch, p) {
      WriteNops(output, p.at);
      patched' := patched + [p.at];
      assert patched'[..|patched'| - 1] == patched;
    } else {
      patched' := patched;
    }
  }

  /** The loop keeps the offset, the stack of open nodes, the dictionary and the
      bytes it patches; it computes the specification `ReadTree`. */
  method ReadBlob(blob: seq<byte>, patch: Patch) returns (r: Result<Tree>)
    ensures r == ReadTree(blob, patch)
  {
    var header := ParseHeader(blob);
    if header.Err? { return Err(header.error); }
    var h := header.value;
    if h.StructEnd() > h.totalSize || h.StringsEnd() > h.totalSize {
      return Err(BlocksExceedTotal);
    }
    r := ReadBlocks(blob, h, patch);
  }

  method ReadBlocks(blob: seq<byte>, h: Header, patch: Patch) returns (r: Result<Tree>)
    requires h.Fits(blob)
    ensures var ps := Walk(blob, h, h.structStart, [], patch);
            if ps.Err? then r == Err(ps.error)
            else r.Ok? && r.value.properties == ps.value
                 && Noted(blob[..h.totalSize], r.value.output, patch, ps.value, r.value.dict, r.value.patched)
  {
    var output := new byte[h.totalSize](i requires 0 <= i < h.totalSize => blob[i]);
    var offset: nat := h.structStart;
    var nodes: seq<string> := [];
    var properties: seq<Property> := [];
    var dict: Dictionary := map[];
    var patched: seq<nat> := [];
    ghost var base := blob[..h.totalSize];
    ghost var whole := Walk(blob, h, h.structStart, [], patch);
    assert whole == Extend([], whole) by {
      if whole.Ok? { assert [] + whole.value == whole.value; }
    }
    assert output[..] == base;
    while offset + 4 <= h.StructEnd()
      invariant whole == Extend(properties, Walk(blob, h, offset, nodes, patch))
      invariant output.Length == h.totalSize && Noted(base, output[..], patch, properties, dict, patched)
      decreases h.StructEnd() - offset
    {
      var m := Token(blob, h, offset, nodes, patch);
      match m {
        case Stop(result) =>
          StopEnds(blob, h, offset, nodes, patch, properties, m);
          if result.Err? {
            return Err(result.error);
          }
          return Ok(Tree(output[..], properties, dict, patched));
        case Go(next, inside, found) =>
          ExtendGo(blob, h, offset, nodes, patch, properties, m);
          if found != [] {
            dict, patched := Note(base, output, patch, properties, dict, patched, found[0]);
            assert found == [found[0]];
          } else {
            assert properties + found == properties;
          }
          properties := properties + found;
          offset, nodes := next, inside;
      }
    }
    r := Err(NoEnd);
  }

  lemma StopEnds(blob: seq<byte>, h: Header, offset: nat, nodes: seq<string>, patch: Patch, ps: seq<Property>, m: Move)
    requires h.Fits(blob) && Token(blob, h, offset, nodes, patch) == m && m.Stop?
    ensures Extend(ps, Walk(blob, h, offset, nodes, patch)) == if m.result.Ok? then Ok(ps) else m.result
  {
    assert ps + [] == ps;
  }

  // ---- reading the output again

  /** Overwriting the patched properties gives exactly the bytes `PatchedAs` asks for. */
  lemma {:induction false} NopAllPatches(t: Patch, bs: seq<byte>, ps: seq<Property>, from: nat)
    requires InBlock(ps, from, |bs|)
    ensures forall i :: 0 <= i < |Targets(t, ps)| ==> Targets(t, ps)[i] + 12 <= |bs|
    ensures PatchedAs(t, bs, NopAll(bs, Targets(t, ps)), 0, |bs|, ps)
  {
    TargetsInBlock(t, ps, from, |bs|);
    if ps != [] {
      var init, last := ps[..|ps| - 1], ps[|ps| - 1];
      assert ps == init + [last];
      NopAllPatches(t, bs, init, from);
      TargetsSnoc(t, init, last);
      var before := NopAll(bs, Targets(t, init));
      if IsTarget(t, last) {
        var at := Targets(t, ps);
        assert at[..|at| - 1] == Targets(t, init);
        NopOneMore(t, bs, before, init, last);
      } else {
        assert Targets(t, ps) == Targets(t, init);
        forall i | 0 <= i < |bs| && !Covered(t, ps, i) ensures before[i] == bs[i] {
          CoveredSnoc(t, init, last, i);
        }
        forall k | 0 <= k < |ps| && IsTarget(t, ps[k]) ensures ps[k].at + 12 <= |bs| && NopsAt(before, ps[k].at) {
          assert k < |init| && init[k] == ps[k];
        }
      }
    }
  }

  lemma CoveredSnoc(t: Patch, init: seq<Property>, last: Property, i: int)
    ensures Covered(t, init, i) ==> Covered(t, init + [last], i)
  {
    if Covered(t, init, i) {
      var k :| 0 <= k < |init| && IsTarget(t, init[k]) && init[k].at <= i < init[k].at + 12;
      assert (init + [last])[k] == init[k];
    }
  }

  lemma NopOneMore(t: Patch, bs: seq<byte>, before: seq<byte>, init: seq<Property>, last: Property)
    requires |before| == |bs| && last.at + 12 <= |bs| && IsTarget(t, last)
    requires PatchedAs(t, bs, before, 0, |bs|, init)
    requires forall k :: 0 <= k < |init| ==> init[k].at + 12 <= last.at
    ensures PatchedAs(t, bs, Nop3(before, last.at), 0, |bs|, init + [last])
  {
    var out, ps := Nop3(before, last.at), init + [last];
    assert ps[|init|] == last;
    forall i | 0 <= i < |bs| && !Covered(t, ps, i) ensures out[i] == bs[i] {
      CoveredSnoc(t, init, last, i);
    }
    forall k | 0 <= k < |ps| && IsTarget(t, ps[k]) ensures NopsAt(out, ps[k].at) {
      if k < |init| {
        NopsStay(before, init[k].at, last.at);
      } else {
        NopsWritten(before, last.at);
      }
    }
  }

  lemma NopsStay(before: seq<byte>, at: nat, later: nat)
    requires at + 12 <= later && later + 12 <= |before| && NopsAt(before, at)
    ensures NopsAt(Nop3(before, later), at)
  {
  }

  lemma NopsWritten(before: seq<byte>, at: nat)
    requires at + 12 <= |before|
    ensures NopsAt(Nop3(before, at), at)
  {
    assert forall k :: 0 <= k < 12 ==> NOPS[k] == if k % 4 == 3 then NOP else 0;
  }

  lemma HeaderUntouched(blob: seq<byte>, out: seq<byte>, h: Header)
    requires ParseHeader(blob) == Ok(h) && |out| == h.totalSize && Agree(blob, out, 0, HEADER_SIZE)
    ensures ParseHeader(out) == Ok(h)
  {
    WordAgrees(blob, out, 0);
    WordAgrees(blob, out, 4);
    WordAgrees(blob, out, 8);
    WordAgrees(blob, out, 12);
    WordAgrees(blob, out, 32);
    WordAgrees(blob, out, 36);
  }

  /** Outside the structure block the patch changes nothing. */
  lemma PatchStaysInBlock(t: Patch, blob: seq<byte>, out: seq<byte>, h: Header, ps: seq<Property>, from: nat, to: nat)
    requires h.Fits(blob) && |out| == h.totalSize && to <= h.totalSize
    requires PatchedAs(t, blob[..h.totalSize], out, 0, h.totalSize, ps)
    requires InBlock(ps, h.structStart, h.StructEnd())
    requires to <= h.structStart || h.StructEnd() <= from
    ensures Agree(blob, out, from, to)
  {
    forall i | from <= i < to ensures out[i] == blob[i] {
      assert !Covered(t, ps, i);
      assert out[i] == blob[..h.totalSize][i];
    }
  }

  lemma PatchedInBlock(t: Patch, blob: seq<byte>, out: seq<byte>, h: Header, ps: seq<Property>)
    requires h.Fits(blob) && |out| == h.totalSize
    requires PatchedAs(t, blob[..h.totalSize], out, 0, h.totalSize, ps)
    requires InBlock(ps, h.structStart, h.StructEnd())
    ensures PatchedAs(t, blob, out, h.structStart, h.StructEnd(), ps)
  {
    forall i | h.structStart <= i < h.StructEnd() && !Covered(t, ps, i) ensures out[i] == blob[i] {
      assert out[i] == blob[..h.totalSize][i];
    }
  }

  lemma KeptHasNoTarget(t: Patch, ps: seq<Property>)
    ensures forall i :: 0 <= i < |Kept(t, ps)| ==> !IsTarget(t, Kept(t, ps)[i]) && Kept(t, ps)[i] in ps
  {
  }

  lemma NoTargets(t: Patch, ps: seq<Property>)
    requires forall i :: 0 <= i < |ps| ==> !IsTarget(t, ps[i])
    ensures Targets(t, ps) == []
  {
    var at := Targets(t, ps);
    assert forall i :: 0 <= i < |at| ==> at[i] in at;
  }

  lemma RereadWalk(blob: seq<byte>, out: seq<byte>, h: Header, t: Patch, again: Patch, ps: seq<Property>)
    requires ParseHeader(blob) == Ok(h) && h.Fits(blob) && h.Disjoint() && |out| == h.totalSize
    requires Walk(blob, h, h.structStart, [], t) == Ok(ps)
    requires PatchedAs(t, blob[..h.totalSize], out, 0, h.totalSize, ps)
    requires again.Nothing? || again == t
    ensures ParseHeader(out) == Ok(h)
    ensures Walk(out, h, h.structStart, [], again) == Ok(Kept(t, ps))
  {
    WalkInBlock(blob, h, h.structStart, [], t);
    PatchStaysInBlock(t, blob, out, h, ps, 0, HEADER_SIZE);
    HeaderUntouched(blob, out, h);
    PatchStaysInBlock(t, blob, out, h, ps, h.stringsStart, h.StringsEnd());
    PatchedInBlock(t, blob, out, h, ps);
    WalkPatched(t, blob, out, h, h.structStart, [], again, ps);
  }

  /** A tree whose stream holds no target is read back as it stands. */
  lemma ReadUntargeted(out: seq<byte>, h: Header, patch: Patch, ps: seq<Property>)
    requires ParseHeader(out) == Ok(h) && h.Fits(out) && |out| == h.totalSize
    requires Walk(out, h, h.structStart, [], patch) == Ok(ps)
    requires Targets(patch, ps) == []
    ensures ReadTree(out, patch) == Ok(Tree(out, ps, Dict(ps), []))
  {
    assert out[..h.totalSize] == out;
  }

  /** What an accepted read gives. */
  lemma ReadParts(blob: seq<byte>, t: Patch, tree: Tree)
    requires ReadTree(blob, t) == Ok(tree)
    ensures ParseHeader(blob).Ok?
    ensures var h := ParseHeader(blob).value;
            && h.Fits(blob) && |tree.output| == h.totalSize
            && Walk(blob, h, h.structStart, [], t) == Ok(tree.properties)
            && InBlock(tree.properties, h.structStart, h.StructEnd())
            && PatchedAs(t, blob[..h.totalSize], tree.output, 0, h.totalSize, tree.properties)
            && tree.dict == Dict(tree.properties) && tree.patched == Targets(t, tree.properties)
            && (forall i :: 0 <= i < |tree.patched| ==> tree.patched[i] + 12 <= h.totalSize)
            && tree.output == NopAll(blob[..h.totalSize], tree.patched)
  {
    var h := ParseHeader(blob).value;
    WalkInBlock(blob, h, h.structStart, [], t);
    NopAllPatches(t, blob[..h.totalSize], tree.properties, h.structStart);
  }

  /** The blob is accepted and this is what is read from it. */
  ghost predicate Reads(blob: seq<byte>, h: Header, t: Patch, tree: Tree) {
    ParseHeader(blob) == Ok(h) && ReadTree(blob, t) == Ok(tree)
  }

  /** Reading the patched blob gives the original stream with exactly the patched
      entries left out, and patching it again changes nothing. */
  lemma PatchPreservesMeaning(blob: seq<byte>, h: Header, t: Patch, again: Patch, tree: Tree)
    requires Reads(blob, h, t, tree) && h.Disjoint()
    requires again.Nothing? || again == t
    ensures var kept := Kept(t, tree.properties);
            Reads(tree.output, h, again, Tree(tree.output, kept, Dict(kept), []))
  {
    ReadParts(blob, t, tree);
    RereadWalk(blob, tree.output, h, t, again, tree.properties);
    KeptHasNoTarget(t, tree.properties);
    NoTargets(again, Kept(t, tree.properties));
    ReadUntargeted(tree.output, h, again, Kept(t, tree.properties));
  }

  // ---- the dictionaries

  lemma {:induction false} KeptSnoc(t: Patch, ps: seq<Property>, p: Property)
    ensures Kept(t, ps + [p]) == if IsTarget(t, p) then Kept(t, ps) else Kept(t, ps) + [p]
  {
    if ps == [] {
      assert ps + [p] == [p] && [p][1..] == [];
    } else {
      var head, rest := if IsTarget(t, ps[0]) then [] else [ps[0]], ps[1..];
      assert (ps + [p])[0] == ps[0] && (ps + [p])[1..] == rest + [p];
      KeptSnoc(t, rest, p);
      assert Kept(t, ps + [p]) == head + Kept(t, rest + [p]);
      if !IsTarget(t, p) {
        assert head + (Kept(t, rest) + [p]) == (head + Kept(t, rest)) + [p];
      }
    }
  }

  lemma DictSnoc(ps: seq<Property>, p: Property, path: string)
    ensures path in Dict(ps + [p]) <==> path in Dict(ps) || path == p.path
    ensures Lookup(Dict(ps + [p]), path) ==
              if path == p.path then Lookup(Dict(ps), path)[p.name := p.value] else Lookup(Dict(ps), path)
  {
    assert (ps + [p])[..|ps|] == ps;
  }

  /** The dictionary of every other path is the same. */
  lemma {:induction false} OtherPathsUntouched(t: Patch, ps: seq<Property>, path: string)
    requires t.Remove? && path != t.path
    ensures path in Dict(Kept(t, ps)) <==> path in Dict(ps)
    ensures Lookup(Dict(Kept(t, ps)), path) == Lookup(Dict(ps), path)
  {
    if ps != [] {
      var init, last := ps[..|ps| - 1], ps[|ps| - 1];
      assert ps == init + [last];
      OtherPathsUntouched(t, init, path);
      KeptSnoc(t, init, last);
      DictSnoc(init, last, path);
      DictSnoc(Kept(t, init), last, path);
    }
  }

  lemma UpdateThenRemove<V>(m: map<string, V>, key: string, value: V, gone: string)
    ensures m[key := value] - {gone} == if key == gone then m - {gone} else (m - {gone})[key := value]
  {
  }

  /** At the patched path exactly the one name is gone. */
  lemma {:induction false} OneNameRemoved(t: Patch, ps: seq<Property>)
    requires t.Remove?
    ensures Lookup(Dict(Kept(t, ps)), t.path) == Lookup(Dict(ps), t.path) - {t.name}
  {
    if ps != [] {
      var init, last := ps[..|ps| - 1], ps[|ps| - 1];
      assert ps == init + [last];
      OneNameRemoved(t, init);
      KeptSnoc(t, init, last);
      DictSnoc(init, last, t.path);
      DictSnoc(Kept(t, init), last, t.path);
      UpdateThenRemove(Lookup(Dict(init), t.path), last.name, last.value, t.name);
    }
  }

  // ---- the footprint

  /** How many bytes differ. */
  function Diffs(a: seq<byte>, b: seq<byte>): nat
    requires |a| == |b|
  {
    if a == [] then 0 else (if a[0] != b[0] then 1 else 0) + Diffs(a[1..], b[1..])
  }

  lemma {:induction false} DiffsAppend(a: seq<byte>, b: seq<byte>, c: seq<byte>, d: seq<byte>)
    requires |a| == |c| && |b| == |d|
    ensures Diffs(a + b, c + d) == Diffs(a, c) + Diffs(b, d)
  {
    if a == [] {
      assert a + b == b && c + d == d;
    } else {
      assert (a + b)[1..] == a[1..] + b && (c + d)[1..] == c[1..] + d;
      DiffsAppend(a[1..], b, c[1..], d);
    }
  }

  lemma {:induction false} DiffsSame(a: seq<byte>)
    ensures Diffs(a, a) == 0
  {
    if a != [] { DiffsSame(a[1..]); }
  }

  /** A property without a value: its token, its length and its name offset. */
  lemma DiffsMiddle(bs: seq<byte>, at: nat)
    requires at + 12 <= |bs| && Word(bs, at) == PROP && Word(bs, at + 4) == 0
    ensures Diffs(bs[at..at + 12], NOPS) == 2 + Diffs(bs[at + 8..at + 12], [0, 0, 0, 4])
  {
    var head := bs[at..at + 8];
    assert bs[at..at + 12] == head + bs[at + 8..at + 12];
    assert NOPS == [0, 0, 0, 4, 0, 0, 0, 4] + [0, 0, 0, 4];
    DiffsAppend(head, bs[at + 8..at + 12], [0, 0, 0, 4, 0, 0, 0, 4], [0, 0, 0, 4]);
    assert bs[at] == 0 && bs[at + 1] == 0 && bs[at + 2] == 0 && bs[at + 3] == 3;
    assert bs[at + 4] == 0 && bs[at + 5] == 0 && bs[at + 6] == 0 && bs[at + 7] == 0;
    assert head == [0, 0, 0, 3, 0, 0, 0, 0];
    DiffsHead();
  }

  lemma DiffsHead()
    ensures Diffs([0, 0, 0, 3, 0, 0, 0, 0], [0, 0, 0, 4, 0, 0, 0, 4]) == 2
  {
    DiffsAppend([0, 0, 0, 3], [0, 0, 0, 0], [0, 0, 0, 4], [0, 0, 0, 4]);
    assert Diffs([0, 0, 0, 3], [0, 0, 0, 4]) == 1;
    assert Diffs([0, 0, 0, 0], [0, 0, 0, 4]) == 1;
  }

  lemma DiffsSandwich(a: seq<byte>, b: seq<byte>, c: seq<byte>, d: seq<byte>)
    requires |b| == |c|
    ensures Diffs(a + b + d, a + c + d) == Diffs(b, c)
  {
    DiffsAppend(a + b, d, a + c, d);
    DiffsAppend(a, b, a, c);
    DiffsSame(a);
    DiffsSame(d);
  }

  lemma DiffsReplaced(bs: seq<byte>, from: nat, to: nat, mid: seq<byte>)
    requires from <= to <= |bs| && |mid| == to - from
    ensures Diffs(bs, bs[..from] + mid + bs[to..]) == Diffs(bs[from..to], mid)
  {
    assert bs == bs[..from] + bs[from..to] + bs[to..];
    DiffsSandwich(bs[..from], bs[from..to], mid, bs[to..]);
  }

  // ---- main

  const SPI_SECURE_MODE := Remove(SPI_PATH, SECURE_MODE)

  function Chars(s: string): (r: seq<byte>)
    requires forall i :: 0 <= i < |s| ==> s[i] as int < 256
  {
    seq(|s|, i requires 0 <= i < |s| => s[i] as int)
  }

  predicate StockContract(d: Dictionary) {
    var spi, fpc := Lookup(d, SPI_PATH), Lookup(d, FPC_PATH);
    && SECURE_MODE in spi
    && "compatible" in fpc && fpc["compatible"] == Chars("fpc,fpc_irq\0")
    && "gx,gpio_irq" in fpc && "gx,gpio_reset" in fpc
  }

  /** Main's checks on what it made. */
  function CheckOutput(stock: seq<byte>, before: Dictionary, patched: Tree): Result<seq<byte>> {
    if |patched.patched| != 1 then Err(NotExactlyOne)
    else
      var output := patched.output;
      var after := ReadTree(output, Nothing);
      if after.Err? then Err(after.error)
      else if SECURE_MODE in Lookup(after.value.dict, SPI_PATH) then Err(SecureModeKept)
      else if (FPC_PATH in after.value.dict) != (FPC_PATH in before)
              || Lookup(after.value.dict, FPC_PATH) != Lookup(before, FPC_PATH) then Err(FpcChanged)
      else if |output| != |stock| || Diffs(stock, output) != 4 then Err(WrongFootprint)
      else Ok(output)
  }

  /** Main without its files: `hashMatches` says whether the stock blob has the
      locked digest. */
  function Build(input: seq<byte>, hashMatches: bool): Result<seq<byte>> {
    var header := ParseHeader(input);
    if header.Err? then Err(header.error)
    else
      var stock := input[..header.value.totalSize];
      if !hashMatches then Err(HashMismatch)
      else
        var before := ReadTree(stock, Nothing);
        if before.Err? then Err(before.error)
        else if !StockContract(before.value.dict) then Err(ContractBroken)
        else
          var patched := ReadTree(stock, SPI_SECURE_MODE);
          if patched.Err? then Err(patched.error)
          else CheckOutput(stock, before.value.dict, patched.value)
  }

  /** Reading to patch accepts what plain reading accepts, but for a target that has
      a value, and finds the same properties. */
  lemma {:induction false} PatchReadsTheSame(blob: seq<byte>, h: Header, offset: nat, nodes: seq<string>, t: Patch)
    requires h.Fits(blob)
    ensures Walk(blob, h, offset, nodes, t).Ok? ==>
              Walk(blob, h, offset, nodes, Nothing) == Walk(blob, h, offset, nodes, t)
    decreases h.StructEnd() - offset
  {
    var m := Token(blob, h, offset, nodes, t);
    if m.Go? {
      PatchReadsTheSame(blob, h, m.next, m.nodes, t);
      TokenDiffers(blob, h, offset, nodes, t);
    }
  }

  /** Some property to be patched has a value. */
  ghost predicate HasValue(t: Patch, ps: seq<Property>) {
    exists k :: 0 <= k < |ps| && IsTarget(t, ps[k]) && ps[k].value != []
  }

  lemma HasValueAppend(t: Patch, a: seq<Property>, b: seq<Property>)
    ensures HasValue(t, a + b) <==> HasValue(t, a) || HasValue(t, b)
  {
    var c := a + b;
    if HasValue(t, a) {
      var k :| 0 <= k < |a| && IsTarget(t, a[k]) && a[k].value != [];
      assert c[k] == a[k];
    } else if HasValue(t, b) {
      var k :| 0 <= k < |b| && IsTarget(t, b[k]) && b[k].value != [];
      assert c[|a| + k] == b[k];
    }
  }

  lemma PropertyDiffers(blob: seq<byte>, h: Header, offset: nat, nodes: seq<string>, t: Patch)
    requires h.Fits(blob) && offset + 4 <= h.StructEnd()
    ensures var p, q := ReadProperty(blob, h, offset, nodes, t), ReadProperty(blob, h, offset, nodes, Nothing);
            p == q || (p == Err(SecureModeNotEmpty) && q.Ok? && IsTarget(t, q.value) && q.value.value != [])
    ensures var p := ReadProperty(blob, h, offset, nodes, t);
            p.Ok? && IsTarget(t, p.value) ==> p.value.value == []
  {
  }

  /** Where a token stops the patching read only, a property to be patched has a value. */
  lemma TokenDiffers(blob: seq<byte>, h: Header, offset: nat, nodes: seq<string>, t: Patch)
    requires h.Fits(blob)
    ensures var m, plain := Token(blob, h, offset, nodes, t), Token(blob, h, offset, nodes, Nothing);
            || (m == plain && (m.Go? ==> !HasValue(t, m.found)))
            || (m == Stop(Err(SecureModeNotEmpty)) && plain.Go? && HasValue(t, plain.found))
  {
    if offset + 4 <= h.StructEnd() {
      PropertyDiffers(blob, h, offset, nodes, t);
      var q := ReadProperty(blob, h, offset, nodes, Nothing);
      if q.Ok? && IsTarget(t, q.value) && q.value.value != [] {
        assert [q.value][0] == q.value;
        assert HasValue(t, [q.value]);
      }
    }
  }

  /** Of what plain reading accepts, the patching read turns down exactly the blobs in
      which a property to be patched has a value, and it says so. */
  lemma {:induction false} PatchReadFails(blob: seq<byte>, h: Header, offset: nat, nodes: seq<string>, t: Patch)
    requires h.Fits(blob) && Walk(blob, h, offset, nodes, Nothing).Ok?
    ensures Walk(blob, h, offset, nodes, t) ==
              if HasValue(t, Walk(blob, h, offset, nodes, Nothing).value) then Err(SecureModeNotEmpty)
              else Walk(blob, h, offset, nodes, Nothing)
    decreases h.StructEnd() - offset
  {
    TokenDiffers(blob, h, offset, nodes, t);
    var plain := Token(blob, h, offset, nodes, Nothing);
    if plain.Go? {
      PatchReadFails(blob, h, plain.next, plain.nodes, t);
      HasValueAppend(t, plain.found, Walk(blob, h, plain.next, plain.nodes, Nothing).value);
    }
  }

  ghost predicate EmptyAt(blob: seq<byte>, h: Header, at: nat)
    requires h.Fits(blob)
  {
    at + 12 <= h.StructEnd() && Word(blob, at) == PROP && Word(blob, at + 4) == 0
  }

  ghost predicate TargetsEmpty(blob: seq<byte>, h: Header, t: Patch, ps: seq<Property>)
    requires h.Fits(blob)
  {
    forall k :: 0 <= k < |ps| && IsTarget(t, ps[k]) ==> EmptyAt(blob, h, ps[k].at)
  }

  lemma TargetsEmptyAppend(blob: seq<byte>, h: Header, t: Patch, a: seq<Property>, b: seq<Property>)
    requires h.Fits(blob) && TargetsEmpty(blob, h, t, a) && TargetsEmpty(blob, h, t, b)
    ensures TargetsEmpty(blob, h, t, a + b)
  {
  }

  lemma FoundIsEmpty(blob: seq<byte>, h: Header, offset: nat, nodes: seq<string>, t: Patch)
    requires h.Fits(blob) && Token(blob, h, offset, nodes, t).Go?
    ensures TargetsEmpty(blob, h, t, Token(blob, h, offset, nodes, t).found)
  {
  }

  /** Each patched property is a property token with length zero. */
  lemma {:induction false} WalkTargetsEmpty(blob: seq<byte>, h: Header, offset: nat, nodes: seq<string>, t: Patch)
    requires h.Fits(blob) && Walk(blob, h, offset, nodes, t).Ok?
    ensures TargetsEmpty(blob, h, t, Walk(blob, h, offset, nodes, t).value)
    decreases h.StructEnd() - offset
  {
    var m := Token(blob, h, offset, nodes, t);
    if m.Go? {
      FoundIsEmpty(blob, h, offset, nodes, t);
      WalkTargetsEmpty(blob, h, m.next, m.nodes, t);
      TargetsEmptyAppend(blob, h, t, m.found, Walk(blob, h, m.next, m.nodes, t).value);
    }
  }

  /** How many bytes of the name offset differ from those of a NOP token. */
  function NameDiffs(bs: seq<byte>, at: nat): nat
    requires at + 12 <= |bs|
  {
    Diffs(bs[at + 8..at + 12], [0, 0, 0, 4])
  }

  lemma OneNop(bs: seq<byte>, at: nat)
    requires at + 12 <= |bs|
    ensures NopAll(bs, [at]) == Nop3(bs, at)
  {
    assert [at][..0] == [];
  }

  lemma TargetIsEmpty(blob: seq<byte>, h: Header, t: Patch, ps: seq<Property>, at: nat)
    requires h.Fits(blob) && Walk(blob, h, h.structStart, [], t) == Ok(ps) && at in Targets(t, ps)
    ensures at + 12 <= h.StructEnd() && Word(blob, at) == PROP && Word(blob, at + 4) == 0
  {
    var k :| 0 <= k < |ps| && ps[k].at == at && IsTarget(t, ps[k]);
    WalkTargetsEmpty(blob, h, h.structStart, [], t);
    assert EmptyAt(blob, h, ps[k].at);
  }

  lemma OneTarget(blob: seq<byte>, t: Patch, tree: Tree, at: nat)
    requires ReadTree(blob, t) == Ok(tree) && tree.patched == [at]
    ensures at + 12 <= |tree.output| <= |blob|
    ensures tree.output == Nop3(blob[..|tree.output|], at)
    ensures Word(blob, at) == PROP && Word(blob, at + 4) == 0
  {
    ReadParts(blob, t, tree);
    var h := ParseHeader(blob).value;
    TargetIsEmpty(blob, h, t, tree.properties, at);
    OneNop(blob[..h.totalSize], at);
  }

  lemma FootprintCount(stock: seq<byte>, at: nat)
    requires at + 12 <= |stock| && Word(stock, at) == PROP && Word(stock, at + 4) == 0
    ensures Diffs(stock, Nop3(stock, at)) == 2 + NameDiffs(stock, at)
  {
    DiffsReplaced(stock, at, at + 12, NOPS);
    DiffsMiddle(stock, at);
  }

  /** One patched property: only its twelve bytes can change, and the number that
      does is two plus what its name offset contributes. */
  lemma Footprint(blob: seq<byte>, h: Header, t: Patch, tree: Tree, at: nat)
    requires Reads(blob, h, t, tree) && tree.patched == [at]
    ensures at + 12 <= |tree.output| <= |blob|
    ensures forall i :: 0 <= i < |tree.output| && !(at <= i < at + 12) ==> tree.output[i] == blob[i]
    ensures Diffs(blob[..|tree.output|], tree.output) == 2 + NameDiffs(blob[..|tree.output|], at)
  {
    OneTarget(blob, t, tree, at);
    var stock := blob[..|tree.output|];
    assert Word(stock, at) == Word(blob, at) && Word(stock, at + 4) == Word(blob, at + 4);
    FootprintCount(stock, at);
  }

  lemma StockHeader(input: seq<byte>, h: Header)
    requires ParseHeader(input) == Ok(h)
    ensures ParseHeader(input[..h.totalSize]) == Ok(h)
  {
    HeaderUntouched(input, input[..h.totalSize], h);
  }

  /** What main reads back from the output it made, and compares. */
  lemma OutputChecks(stock: seq<byte>, h: Header, tree: Tree)
    requires Reads(stock, h, SPI_SECURE_MODE, tree) && h.Disjoint() && |stock| == h.totalSize
    ensures var after := ReadTree(tree.output, Nothing);
            && after.Ok? && |tree.output| == |stock|
            && SECURE_MODE !in Lookup(after.value.dict, SPI_PATH)
            && (FPC_PATH in after.value.dict <==> FPC_PATH in tree.dict)
            && Lookup(after.value.dict, FPC_PATH) == Lookup(tree.dict, FPC_PATH)
  {
    var t := SPI_SECURE_MODE;
    ReadParts(stock, t, tree);
    PatchPreservesMeaning(stock, h, t, Nothing, tree);
    OneNameRemoved(t, tree.properties);
    assert FPC_PATH != SPI_PATH by { assert |FPC_PATH| != |SPI_PATH|; }
    OtherPathsUntouched(t, tree.properties, FPC_PATH);
  }

  /** With a blob whose blocks do not overlap, the only checks on the output that
      can fail are the number of patched properties and the four changed bytes, and
      the latter exactly when the name offset does not contribute two of them. */
  lemma CheckOutputExact(stock: seq<byte>, h: Header, tree: Tree)
    requires Reads(stock, h, SPI_SECURE_MODE, tree) && h.Disjoint() && |stock| == h.totalSize
    ensures |tree.patched| == 1 ==> tree.patched[0] + 12 <= |stock|
    ensures CheckOutput(stock, tree.dict, tree) ==
              if |tree.patched| != 1 then Err(NotExactlyOne)
              else if NameDiffs(stock, tree.patched[0]) != 2 then Err(WrongFootprint)
              else Ok(tree.output)
  {
    OutputChecks(stock, h, tree);
    if |tree.patched| == 1 {
      Footprint(stock, h, SPI_SECURE_MODE, tree, tree.patched[0]);
      assert stock[..|tree.output|] == stock;
    }
  }

  /** The patching read, told by the plain one. */
  lemma PatchingRead(stock: seq<byte>, h: Header, plain: Tree)
    requires Reads(stock, h, Nothing, plain)
    ensures var read := ReadTree(stock, SPI_SECURE_MODE);
            if HasValue(SPI_SECURE_MODE, plain.properties) then read == Err(SecureModeNotEmpty)
            else
              && read.Ok? && Reads(stock, h, SPI_SECURE_MODE, read.value)
              && read.value.dict == plain.dict
              && read.value.patched == Targets(SPI_SECURE_MODE, plain.properties)
  {
    PatchReadFails(stock, h, h.structStart, [], SPI_SECURE_MODE);
  }

  /** What main says of a stock blob it has read, decided on what it read.  (A target
      never runs past the end of the blob.) */
  ghost function Verdict(stock: seq<byte>, plain: Tree): Result<seq<byte>> {
    var at := Targets(SPI_SECURE_MODE, plain.properties);
    if !StockContract(plain.dict) then Err(ContractBroken)
    else if HasValue(SPI_SECURE_MODE, plain.properties) then Err(SecureModeNotEmpty)
    else if |at| != 1 || at[0] + 12 > |stock| then Err(NotExactlyOne)
    else if NameDiffs(stock, at[0]) != 2 then Err(WrongFootprint)
    else Ok(Nop3(stock, at[0]))
  }

  lemma VerdictOfOutput(stock: seq<byte>, h: Header, plain: Tree, tree: Tree)
    requires Reads(stock, h, SPI_SECURE_MODE, tree) && h.Disjoint() && |stock| == h.totalSize
    requires tree.dict == plain.dict && tree.patched == Targets(SPI_SECURE_MODE, plain.properties)
    requires StockContract(plain.dict) && !HasValue(SPI_SECURE_MODE, plain.properties)
    ensures CheckOutput(stock, plain.dict, tree) == Verdict(stock, plain)
  {
    CheckOutputExact(stock, h, tree);
    if |tree.patched| == 1 {
      var at := tree.patched[0];
      assert tree.patched == [at];
      OneTarget(stock, SPI_SECURE_MODE, tree, at);
      ReadParts(stock, SPI_SECURE_MODE, tree);
      assert stock[..|tree.output|] == stock;
    }
  }

  /** Everything main can say of a blob whose blocks do not overlap: each error, and
      the output, from what a plain read of the stock blob finds. */
  lemma BuildExact(input: seq<byte>, h: Header)
    requires ParseHeader(input) == Ok(h) && h.Disjoint()
    ensures Build(input, false) == Err(HashMismatch)
    ensures var stock := input[..h.totalSize];
            var plain := ReadTree(stock, Nothing);
            Build(input, true) == if plain.Err? then Err(plain.error) else Verdict(stock, plain.value)
  {
    var stock := input[..h.totalSize];
    StockHeader(input, h);
    var plain := ReadTree(stock, Nothing);
    if plain.Ok? {
      PatchingRead(stock, h, plain.value);
      if StockContract(plain.value.dict) && !HasValue(SPI_SECURE_MODE, plain.value.properties) {
        VerdictOfOutput(stock, h, plain.value, ReadTree(stock, SPI_SECURE_MODE).value);
      }
    }
  }

  /** The output is what the tool is for: secure-mode was there and is gone, the FPC child
      is there and as it was, and exactly four bytes changed. */
  ghost predicate Delivers(stock: seq<byte>, output: seq<byte>, before: Dictionary, after: Dictionary) {
    && |output| == |stock| && Diffs(stock, output) == 4
    && "secure-mode" in Lookup(before, "/spi@14d70000") && "secure-mode" !in Lookup(after, "/spi@14d70000")
    && var fpc := Lookup(before, "/spi@14d70000/securefpc_spidev@0");
       && Lookup(after, "/spi@14d70000/securefpc_spidev@0") == fpc
       && "compatible" in fpc && fpc["compatible"] == Chars("fpc,fpc_irq\0")
       && "gx,gpio_irq" in fpc && "gx,gpio_reset" in fpc
  }

  lemma CheckedOutput(stock: seq<byte>, before: Dictionary, patched: Tree) returns (after: Tree)
    requires StockContract(before) && CheckOutput(stock, before, patched).Ok?
    ensures CheckOutput(stock, before, patched) == Ok(patched.output)
    ensures ReadTree(patched.output, Nothing) == Ok(after) && Delivers(stock, patched.output, before, after.dict)
  {
    after := ReadTree(patched.output, Nothing).value;
  }

  /** What main delivers, on any blob whatever its layout: the digest matched, and the
      output reads back as it should. */
  lemma BuildDelivers(input: seq<byte>, hashMatches: bool, h: Header, stock: seq<byte>)
    returns (before: Tree, after: Tree)
    requires Build(input, hashMatches).Ok?
    requires ParseHeader(input) == Ok(h) && stock == input[..h.totalSize]
    ensures hashMatches && ReadTree(stock, Nothing) == Ok(before)
    ensures ReadTree(Build(input, hashMatches).value, Nothing) == Ok(after)
    ensures Delivers(stock, Build(input, hashMatches).value, before.dict, after.dict)
  {
    before := ReadTree(stock, Nothing).value;
    after := CheckedOutput(stock, before.dict, ReadTree(stock, SPI_SECURE_MODE).value);
  }
}
