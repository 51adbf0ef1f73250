/** The patch changes nothing but the patched property: reading the output again
    gives the same stream without it, and main's own checks on the output follow. */
module FdtPatch {
  import opened Bytes
  import opened Fdt

  ghost predicate Agree(blob: seq<byte>, out: seq<byte>, from: int, to: int) {
    forall i :: from <= i < to && 0 <= i < |blob| && i < |out| ==> blob[i] == out[i]
  }

  /** `i` lies in a patched property of `ps`. */
  ghost predicate Covered(t: Patch, ps: seq<Property>, i: int) {
    exists k :: 0 <= k < |ps| && IsTarget(t, ps[k]) && ps[k].at <= i < ps[k].at + 12
  }

  ghost predicate NopsAt(out: seq<byte>, at: nat)
    requires at + 12 <= |out|
  {
    forall i :: at <= i < at + 12 ==> out[i] == if (i - at) % 4 == 3 then NOP else 0
  }

  /** From `from` on, `out` is `blob` with the patched properties of `ps` overwritten. */
  ghost predicate PatchedAs(t: Patch, blob: seq<byte>, out: seq<byte>, from: nat, to: nat, ps: seq<Property>)
    requires to <= |blob| && to <= |out|
  {
    && (forall k :: 0 <= k < |ps| && IsTarget(t, ps[k]) ==>
          ps[k].at + 12 <= to && NopsAt(out, ps[k].at))
    && (forall i :: from <= i < to && !Covered(t, ps, i) ==> out[i] == blob[i])
  }

  lemma WordAgrees(blob: seq<byte>, out: seq<byte>, at: nat)
    requires at + 4 <= |blob| && at + 4 <= |out| && Agree(blob, out, at, at + 4)
    ensures Word(blob, at) == Word(out, at)
  {
  }

  lemma {:induction false} FindNulAgrees(blob: seq<byte>, out: seq<byte>, from: nat, limit: nat)
    requires limit <= |blob| && limit <= |out|
    requires FindNul(blob, from, limit) >= 0
    requires Agree(blob, out, from, FindNul(blob, from, limit) + 1)
    ensures FindNul(out, from, limit) == FindNul(blob, from, limit)
    decreases limit - from
  {
    if blob[from] != 0 {
      FindNulAgrees(blob, out, from + 1, limit);
    }
  }

  lemma CStringAgrees(blob: seq<byte>, out: seq<byte>, from: nat, limit: nat)
    requires limit <= |blob| && limit <= |out|
    requires CString(blob, from, limit).Ok?
    requires Agree(blob, out, from, from + |CString(blob, from, limit).value| + 1)
    ensures CString(out, from, limit) == CString(blob, from, limit)
  {
    FindNulAgrees(blob, out, from, limit);
    var end := FindNul(blob, from, limit);
    assert blob[from..end] == out[from..end];
  }

  lemma SliceAgrees(blob: seq<byte>, out: seq<byte>, from: nat, to: nat)
    requires from <= to <= |blob| && to <= |out| && Agree(blob, out, from, to)
    ensures blob[from..to] == out[from..to]
  {
  }

  /** What a property token reads: two words, a name and a value. */
  ghost predicate SameReads(blob: seq<byte>, out: seq<byte>, h: Header, offset: nat)
    requires h.Fits(blob) && h.Fits(out) && offset + 12 <= h.StructEnd()
  {
    var length, nameOffset := Word(blob, offset + 4), Word(blob, offset + 8);
    && Word(out, offset + 4) == length
    && Word(out, offset + 8) == nameOffset
    && CString(out, h.stringsStart + nameOffset, h.StringsEnd())
       == CString(blob, h.stringsStart + nameOffset, h.StringsEnd())
    && (offset + 12 + length <= h.StructEnd() ==>
          blob[offset + 12..offset + 12 + length] == out[offset + 12..offset + 12 + length])
  }

  lemma SameReadsSameProperty(t: Patch, blob: seq<byte>, out: seq<byte>, h: Header, offset: nat,
                              nodes: seq<string>, patch: Patch)
    requires patch.Nothing? || patch == t
    requires h.Fits(blob) && h.Fits(out) && offset + 12 <= h.StructEnd()
    requires SameReads(blob, out, h, offset)
    requires var p := ReadProperty(blob, h, offset, nodes, t); p.Ok? && !IsTarget(t, p.value)
    ensures ReadProperty(out, h, offset, nodes, patch) == ReadProperty(blob, h, offset, nodes, t)
  {
    var p := ReadProperty(blob, h, offset, nodes, t).value;
    var length := |p.value|;
    assert p == Property(offset, Path(nodes), p.name, blob[offset + 12..offset + 12 + length]);
    assert CString(out, h.stringsStart + Word(out, offset + 8), h.StringsEnd()) == Ok(p.name);
    assert out[offset + 12..offset + 12 + length] == p.value;
    assert !IsTarget(patch, p);
  }

  lemma ReadsAgree(blob: seq<byte>, out: seq<byte>, h: Header, offset: nat, length: nat, nameAt: nat)
    requires h.Fits(blob) && h.Fits(out) && offset + 12 + length <= h.StructEnd()
    requires length == Word(blob, offset + 4) && nameAt == h.stringsStart + Word(blob, offset + 8)
    requires CString(blob, nameAt, h.StringsEnd()).Ok?
    requires Agree(blob, out, offset, offset + 12 + length)
    requires Agree(blob, out, h.stringsStart, h.StringsEnd())
    ensures SameReads(blob, out, h, offset)
  {
    WordsAgree(blob, out, offset);
    CStringAgrees(blob, out, nameAt, h.StringsEnd());
    SliceAgrees(blob, out, offset + 12, offset + 12 + length);
  }

  lemma WordsAgree(blob: seq<byte>, out: seq<byte>, offset: nat)
    requires offset + 12 <= |blob| && offset + 12 <= |out| && Agree(blob, out, offset, offset + 12)
    ensures Word(blob, offset + 4) == Word(out, offset + 4)
    ensures Word(blob, offset + 8) == Word(out, offset + 8)
  {
    WordAgrees(blob, out, offset + 4);
    WordAgrees(blob, out, offset + 8);
  }

  lemma BeginAgrees(t: Patch, blob: seq<byte>, out: seq<byte>, h: Header, offset: nat, nodes: seq<string>, patch: Patch)
    requires h.Fits(blob) && h.Fits(out) && offset + 4 <= h.StructEnd()
    requires Word(blob, offset) == Word(out, offset) == BEGIN_NODE
    requires var m := Token(blob, h, offset, nodes, t);
             m.Go? && Agree(blob, out, offset, m.next)
    ensures Token(out, h, offset, nodes, patch) == Token(blob, h, offset, nodes, t)
  {
    var name := CString(blob, offset + 4, h.StructEnd());
    assert Token(blob, h, offset, nodes, t).next >= offset + 4 + |name.value| + 1;
    CStringAgrees(blob, out, offset + 4, h.StructEnd());
  }

  lemma PropAgrees(t: Patch, blob: seq<byte>, out: seq<byte>, h: Header, offset: nat, nodes: seq<string>, patch: Patch)
    requires patch.Nothing? || patch == t
    requires h.Fits(blob) && h.Fits(out) && offset + 4 <= h.StructEnd()
    requires Word(blob, offset) == Word(out, offset) == PROP
    requires var m := Token(blob, h, offset, nodes, t);
             m.Go? && m.found != [] && !IsTarget(t, m.found[0]) && Agree(blob, out, offset, m.next)
    requires Agree(blob, out, h.stringsStart, h.StringsEnd())
    ensures Token(out, h, offset, nodes, patch) == Token(blob, h, offset, nodes, t)
  {
    var p := ReadProperty(blob, h, offset, nodes, t);
    var m := Token(blob, h, offset, nodes, t);
    assert m == Go(Align4(offset + 12 + |p.value.value|), nodes, [p.value]);
    ReadsAgree(blob, out, h, offset, |p.value.value|, h.stringsStart + Word(blob, offset + 8));
    SameReadsSameProperty(t, blob, out, h, offset, nodes, patch);
    assert ReadProperty(out, h, offset, nodes, patch) == p;
  }

  /** A token that is not patched is read the same in the output. */
  lemma TokenAgrees(t: Patch, blob: seq<byte>, out: seq<byte>, h: Header, offset: nat, nodes: seq<string>, patch: Patch)
    requires patch.Nothing? || patch == t
    requires h.Fits(blob) && h.Fits(out) && offset + 4 <= h.StructEnd()
    requires var m := Token(blob, h, offset, nodes, t);
             match m
             case Stop(result) => result.Ok? && Agree(blob, out, offset, offset + 4)
             case Go(next, _, found) =>
               Agree(blob, out, offset, next) && (found == [] || !IsTarget(t, found[0]))
    requires Agree(blob, out, h.stringsStart, h.StringsEnd())
    ensures Token(out, h, offset, nodes, patch) == Token(blob, h, offset, nodes, t)
  {
    WordAgrees(blob, out, offset);
    var token := Word(blob, offset);
    if token == BEGIN_NODE {
      BeginAgrees(t, blob, out, h, offset, nodes, patch);
    } else if token == PROP {
      PropAgrees(t, blob, out, h, offset, nodes, patch);
    }
  }

  /** Where the property was, the output has three tokens that say nothing. */
  lemma NopsSkip(out: seq<byte>, h: Header, offset: nat, nodes: seq<string>, patch: Patch)
    requires h.Fits(out) && offset + 12 <= h.StructEnd()
    requires NopsAt(out, offset)
    ensures Walk(out, h, offset, nodes, patch) == Walk(out, h, offset + 12, nodes, patch)
  {
    NopWords(out, offset);
    NopSkips(out, h, offset, nodes, patch);
    NopSkips(out, h, offset + 4, nodes, patch);
    NopSkips(out, h, offset + 8, nodes, patch);
  }

  lemma NopWords(out: seq<byte>, at: nat)
    requires at + 12 <= |out| && NopsAt(out, at)
    ensures Word(out, at) == Word(out, at + 4) == Word(out, at + 8) == NOP
  {
  }

  lemma NopSkips(out: seq<byte>, h: Header, offset: nat, nodes: seq<string>, patch: Patch)
    requires h.Fits(out) && offset + 4 <= h.StructEnd() && Word(out, offset) == NOP
    ensures Walk(out, h, offset, nodes, patch) == Walk(out, h, offset + 4, nodes, patch)
  {
    assert Token(out, h, offset, nodes, patch) == Go(offset + 4, nodes, []);
    var rest := Walk(out, h, offset + 4, nodes, patch);
    if rest.Ok? {
      assert [] + rest.value == rest.value;
    }
  }

  /** Inside a node every token is aligned, so a removed property leaves no gap. */
  lemma TokenAligned(blob: seq<byte>, h: Header, offset: nat, nodes: seq<string>, patch: Patch)
    requires h.Fits(blob) && (nodes != [] ==> offset % 4 == 0)
    ensures var m := Token(blob, h, offset, nodes, patch);
            m.Go? && m.nodes != [] ==> m.next % 4 == 0
  {
  }

  lemma CoveredTail(t: Patch, from: nat, next: nat, found: seq<Property>, rest: seq<Property>, i: int)
    requires found == [] || (|found| == 1 && found[0].at == from && from + 12 <= next)
    requires next <= i && Covered(t, found + rest, i)
    ensures Covered(t, rest, i)
  {
    var all := found + rest;
    var k :| 0 <= k < |all| && IsTarget(t, all[k]) && all[k].at <= i < all[k].at + 12;
    assert rest[k - |found|] == all[k];
  }

  lemma PatchedTail(t: Patch, blob: seq<byte>, out: seq<byte>, from: nat, next: nat, to: nat,
                    found: seq<Property>, rest: seq<Property>)
    requires to <= |blob| && to <= |out| && from <= next
    requires PatchedAs(t, blob, out, from, to, found + rest)
    requires found == [] || (|found| == 1 && found[0].at == from && from + 12 <= next)
    ensures PatchedAs(t, blob, out, next, to, rest)
  {
    forall k | 0 <= k < |rest| && IsTarget(t, rest[k]) ensures rest[k].at + 12 <= to && NopsAt(out, rest[k].at) {
      assert (found + rest)[k + |found|] == rest[k];
    }
    forall i | next <= i < to && !Covered(t, rest, i) ensures out[i] == blob[i] {
      if Covered(t, found + rest, i) {
        CoveredTail(t, from, next, found, rest, i);
      }
    }
  }

  lemma PatchedHead(t: Patch, blob: seq<byte>, out: seq<byte>, from: nat, next: nat, to: nat,
                    found: seq<Property>, rest: seq<Property>)
    requires next <= to <= |blob| && to <= |out| && from <= next
    requires PatchedAs(t, blob, out, from, to, found + rest)
    requires InBlock(rest, next, to)
    requires found == [] || (|found| == 1 && !IsTarget(t, found[0]))
    ensures Agree(blob, out, from, next)
  {
    var all := found + rest;
    forall i | from <= i < next ensures out[i] == blob[i] {
      assert !Covered(t, all, i);
    }
  }

  lemma KeptAppend(t: Patch, found: seq<Property>, rest: seq<Property>)
    requires |found| <= 1
    ensures Kept(t, found + rest) ==
              if found == [] || IsTarget(t, found[0]) then Kept(t, rest) else found + Kept(t, rest)
  {
    if found == [] {
      assert found + rest == rest;
    } else {
      assert (found + rest)[0] == found[0] && (found + rest)[1..] == rest && found == [found[0]];
      assert Kept(t, found + rest) == (if IsTarget(t, found[0]) then [] else [found[0]]) + Kept(t, rest);
    }
  }

  lemma WalkGo(blob: seq<byte>, h: Header, offset: nat, nodes: seq<string>, patch: Patch, m: Move, rest: seq<Property>)
    requires h.Fits(blob) && Token(blob, h, offset, nodes, patch) == m && m.Go?
    requires Walk(blob, h, m.next, m.nodes, patch) == Ok(rest)
    ensures Walk(blob, h, offset, nodes, patch) == Ok(m.found + rest)
  {
  }

  /** The heart of it: the walk over the output is the walk over the input with the
      patched properties left out. */
  lemma {:induction false} WalkPatched(t: Patch, blob: seq<byte>, out: seq<byte>, h: Header, offset: nat,
                                       nodes: seq<string>, patch: Patch, ps: seq<Property>)
    requires patch.Nothing? || patch == t
    requires h.Fits(blob) && h.Fits(out)
    requires nodes != [] ==> offset % 4 == 0
    requires Walk(blob, h, offset, nodes, t) == Ok(ps)
    requires Agree(blob, out, h.stringsStart, h.StringsEnd())
    requires PatchedAs(t, blob, out, offset, h.StructEnd(), ps)
    ensures Walk(out, h, offset, nodes, patch) == Ok(Kept(t, ps))
    decreases h.StructEnd() - offset
  {
    WalkNeedsRoom(blob, h, offset, nodes, t);
    var m := Token(blob, h, offset, nodes, t);
    match m
    case Stop(result) =>
      PatchedHead(t, blob, out, offset, offset + 4, h.StructEnd(), [], []);
      TokenAgrees(t, blob, out, h, offset, nodes, patch);
    case Go(next, inside, found) =>
      var rest := Walk(blob, h, next, inside, t).value;
      assert ps == found + rest;
      PatchedTail(t, blob, out, offset, next, h.StructEnd(), found, rest);
      TokenAligned(blob, h, offset, nodes, t);
      WalkPatched(t, blob, out, h, next, inside, patch, rest);
      if found != [] && IsTarget(t, found[0]) {
        PatchedTokenSize(t, blob, h, offset, nodes);
        FirstIsNopped(t, blob, out, offset, h.StructEnd(), found, rest);
        RemovedStep(t, out, h, offset, nodes, patch, found, rest);
      } else {
        KeptStep(t, blob, out, h, offset, nodes, patch, m, rest);
      }
  }

  /** The step over a patched property, given the rest of the walk. */
  lemma RemovedStep(t: Patch, out: seq<byte>, h: Header, offset: nat, nodes: seq<string>,
                    patch: Patch, found: seq<Property>, rest: seq<Property>)
    requires h.Fits(out) && offset + 12 <= h.StructEnd()
    requires |found| == 1 && IsTarget(t, found[0])
    requires NopsAt(out, offset)
    requires Walk(out, h, offset + 12, nodes, patch) == Ok(Kept(t, rest))
    ensures Walk(out, h, offset, nodes, patch) == Ok(Kept(t, found + rest))
  {
    KeptAppend(t, found, rest);
    NopsSkip(out, h, offset, nodes, patch);
  }

  lemma FirstIsNopped(t: Patch, blob: seq<byte>, out: seq<byte>, from: nat, to: nat,
                      found: seq<Property>, rest: seq<Property>)
    requires to <= |blob| && to <= |out|
    requires |found| == 1 && IsTarget(t, found[0]) && PatchedAs(t, blob, out, from, to, found + rest)
    ensures found[0].at + 12 <= to && NopsAt(out, found[0].at)
  {
    assert (found + rest)[0] == found[0];
  }

  /** The step over any other token. */
  lemma KeptStep(t: Patch, blob: seq<byte>, out: seq<byte>, h: Header, offset: nat, nodes: seq<string>,
                 patch: Patch, m: Move, rest: seq<Property>)
    requires patch.Nothing? || patch == t
    requires h.Fits(blob) && h.Fits(out) && offset + 4 <= h.StructEnd()
    requires Token(blob, h, offset, nodes, t) == m && m.Go? && (m.found == [] || !IsTarget(t, m.found[0]))
    requires Walk(blob, h, m.next, m.nodes, t) == Ok(rest)
    requires Agree(blob, out, h.stringsStart, h.StringsEnd())
    requires PatchedAs(t, blob, out, offset, h.StructEnd(), m.found + rest)
    requires Walk(out, h, m.next, m.nodes, patch) == Ok(Kept(t, rest))
    ensures Walk(out, h, offset, nodes, patch) == Ok(Kept(t, m.found + rest))
  {
    KeptAppend(t, m.found, rest);
    WalkInBlock(blob, h, m.next, m.nodes, t);
    WalkNeedsRoom(blob, h, m.next, m.nodes, t);
    PatchedHead(t, blob, out, offset, m.next, h.StructEnd(), m.found, rest);
    TokenAgrees(t, blob, out, h, offset, nodes, patch);
    WalkGo(out, h, offset, nodes, patch, m, Kept(t, rest));
    if m.found == [] {
      assert m.found + Kept(t, rest) == Kept(t, rest);
    }
  }

  /** A walk that succeeds from `offset` has a token there. */
  lemma WalkNeedsRoom(blob: seq<byte>, h: Header, offset: nat, nodes: seq<string>, patch: Patch)
    requires h.Fits(blob) && Walk(blob, h, offset, nodes, patch).Ok?
    ensures offset + 4 <= h.StructEnd()
  {
  }

  lemma PatchedTokenSize(t: Patch, blob: seq<byte>, h: Header, offset: nat, nodes: seq<string>)
    requires h.Fits(blob) && (nodes != [] ==> offset % 4 == 0)
    requires var m := Token(blob, h, offset, nodes, t);
             m.Go? && m.found != [] && IsTarget(t, m.found[0])
    ensures Token(blob, h, offset, nodes, t).next == offset + 12
    ensures Token(blob, h, offset, nodes, t).nodes == nodes
    ensures Word(blob, offset) == PROP && Word(blob, offset + 4) == 0
  {
    var p := ReadProperty(blob, h, offset, nodes, t);
    assert Token(blob, h, offset, nodes, t) == Go(Align4(offset + 12 + |p.value.value|), nodes, [p.value]);
    AlignedStays(offset + 12);
  }

  lemma AlignedStays(value: nat)
    requires value % 4 == 0
    ensures Align4(value) == value
  {
  }
}
