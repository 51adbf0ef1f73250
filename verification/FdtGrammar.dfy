/** The reader accepts exactly the structure blocks that the format describes: tokens one
    after the other, nodes that open and close in pairs, properties inside nodes only,
    and an end token after the last node.  The tokens and their order are told here
    without the reader. */
module FdtGrammar {
  import opened Bytes
  import opened Fdt

  /** The header's fields, told by bytes. */
  lemma HeaderExact(blob: seq<byte>)
    ensures ParseHeader(blob).Ok? <==>
              && |blob| >= 40 && blob[..4] == [0xd0, 0x0d, 0xfe, 0xed]
              && 40 <= Word(blob, 4) <= |blob|
    ensures ParseHeader(blob).Ok? ==>
              ParseHeader(blob).value == Header(totalSize := Word(blob, 4), structStart := Word(blob, 8),
                                                stringsStart := Word(blob, 12), stringsSize := Word(blob, 32),
                                                structSize := Word(blob, 36))
  {
    if |blob| >= 40 {
      MagicBytes(blob);
    }
  }

  lemma MagicBytes(blob: seq<byte>)
    requires |blob| >= 40
    ensures Word(blob, 0) == 0xd00d_feed <==> blob[..4] == [0xd0, 0x0d, 0xfe, 0xed]
  {
    assert blob[..4] == [blob[0], blob[1], blob[2], blob[3]];
  }

  lemma FindNulIs(blob: seq<byte>, from: nat, limit: nat, at: nat)
    requires from <= at < limit <= |blob| && blob[at] == 0
    requires forall i :: from <= i < at ==> blob[i] != 0
    ensures FindNul(blob, from, limit) == at
  {
  }

  lemma CStringIs(blob: seq<byte>, from: nat, limit: nat, text: string)
    requires from + |text| < limit <= |blob| && blob[from + |text|] == 0
    requires forall i :: 0 <= i < |text| ==> 0 < text[i] as int < 128 && blob[from + i] == text[i] as int
    ensures CString(blob, from, limit) == Ok(text)
  {
    var end := from + |text|;
    assert forall i :: from <= i < end ==> blob[i] == text[i - from] as int;
    FindNulIs(blob, from, limit, end);
    assert Text(blob[from..end]) == text;
  }

  /** A name is the ASCII text before the first NUL, which must come before the limit. */
  lemma CStringExact(blob: seq<byte>, from: nat, limit: nat, text: string)
    requires limit <= |blob|
    ensures CString(blob, from, limit) == Ok(text) <==> StandsAt(blob, from, limit, text)
  {
    if StandsAt(blob, from, limit, text) {
      CStringIs(blob, from, limit, text);
    } else if CString(blob, from, limit) == Ok(text) {
      StandsWhereRead(blob, from, limit, text);
    }
  }

  ghost predicate StandsAt(blob: seq<byte>, from: nat, limit: nat, text: string)
    requires limit <= |blob|
  {
    && from + |text| < limit && blob[from + |text|] == 0
    && forall i :: 0 <= i < |text| ==> 0 < text[i] as int < 128 && blob[from + i] == text[i] as int
  }

  lemma StandsWhereRead(blob: seq<byte>, from: nat, limit: nat, text: string)
    requires limit <= |blob| && CString(blob, from, limit) == Ok(text)
    ensures StandsAt(blob, from, limit, text)
  {
    var end := FindNul(blob, from, limit);
    assert forall i :: 0 <= i < |text| ==> text[i] == blob[from..end][i] as char;
  }

  datatype Tok = Begin(name: string) | End | Prop(name: string, value: seq<byte>) | Skip

  /** The token at `at` is `tok`. */
  ghost predicate At(blob: seq<byte>, h: Header, at: nat, tok: Tok)
    requires h.Fits(blob)
  {
    && at + 4 <= h.StructEnd()
    && match tok
       case Begin(name) => Word(blob, at) == 1 && CString(blob, at + 4, h.StructEnd()) == Ok(name)
       case End => Word(blob, at) == 2
       case Skip => Word(blob, at) == 4
       case Prop(name, value) =>
         && at + 12 + |value| <= h.StructEnd()
         && Word(blob, at) == 3 && Word(blob, at + 4) == |value|
         && Word(blob, at + 8) < h.stringsSize
         && CString(blob, h.stringsStart + Word(blob, at + 8), h.StringsEnd()) == Ok(name)
         && blob[at + 12..at + 12 + |value|] == value
  }

  /** Where the next token starts: each is padded to a multiple of four. */
  function After(at: nat, tok: Tok): (next: nat)
    ensures at + 4 <= next
  {
    match tok
    case Begin(name) => Align4(at + 4 + |name| + 1)
    case Prop(_, value) => Align4(at + 12 + |value|)
    case End => at + 4
    case Skip => at + 4
  }

  /** The tokens stand in the block one after the other, and then the end token. */
  ghost predicate Lexes(blob: seq<byte>, h: Header, at: nat, toks: seq<Tok>)
    requires h.Fits(blob)
    decreases |toks|
  {
    if toks == [] then at + 4 <= h.StructEnd() && Word(blob, at) == 9
    else At(blob, h, at, toks[0]) && Lexes(blob, h, After(at, toks[0]), toks[1..])
  }

  /** Nodes open and close in pairs and properties are inside a node; `depth` are open. */
  ghost predicate Nested(toks: seq<Tok>, depth: nat) {
    if toks == [] then depth == 0
    else match toks[0]
         case Begin(_) => Nested(toks[1..], depth + 1)
         case End => depth > 0 && Nested(toks[1..], depth - 1)
         case Prop(_, _) => depth > 0 && Nested(toks[1..], depth)
         case Skip => Nested(toks[1..], depth)
  }

  /** The properties, each under the path of the nodes that are open where it stands. */
  function Stream(toks: seq<Tok>, at: nat, nodes: seq<string>): seq<Property> {
    if toks == [] then []
    else
      var next := After(at, toks[0]);
      match toks[0]
      case Begin(name) => Stream(toks[1..], next, nodes + [name])
      case End => Stream(toks[1..], next, if nodes == [] then [] else nodes[..|nodes| - 1])
      case Prop(name, value) => [Property(at, Path(nodes), name, value)] + Stream(toks[1..], next, nodes)
      case Skip => Stream(toks[1..], next, nodes)
  }

  ghost predicate Derives(blob: seq<byte>, h: Header, at: nat, nodes: seq<string>, toks: seq<Tok>, ps: seq<Property>)
    requires h.Fits(blob)
  {
    Lexes(blob, h, at, toks) && Nested(toks, |nodes|) && ps == Stream(toks, at, nodes)
  }

  /** The reader's one step for one token. */
  lemma TokenOf(blob: seq<byte>, h: Header, at: nat, nodes: seq<string>, tok: Tok)
    requires h.Fits(blob) && At(blob, h, at, tok)
    requires tok.End? || tok.Prop? ==> nodes != []
    ensures var m := Token(blob, h, at, nodes, Nothing);
            && m.Go? && m.next == After(at, tok)
            && m.nodes == (match tok case Begin(name) => nodes + [name]
                                     case End => nodes[..|nodes| - 1] case _ => nodes)
            && m.found == if tok.Prop? then [Property(at, Path(nodes), tok.name, tok.value)] else []
  {
  }

  /** What the format describes is read, and read as it stands. */
  lemma {:induction false} ReaderAccepts(blob: seq<byte>, h: Header, at: nat, nodes: seq<string>,
                                         toks: seq<Tok>, ps: seq<Property>)
    requires h.Fits(blob) && Derives(blob, h, at, nodes, toks, ps)
    ensures Walk(blob, h, at, nodes, Nothing) == Ok(ps)
    decreases |toks|
  {
    if toks != [] {
      var tok := toks[0];
      TokenOf(blob, h, at, nodes, tok);
      var m := Token(blob, h, at, nodes, Nothing);
      ReaderAccepts(blob, h, m.next, m.nodes, toks[1..], Stream(toks[1..], m.next, m.nodes));
      assert m.found + Stream(toks[1..], m.next, m.nodes) == ps;
    }
  }

  /** The token that a step of the reader read. */
  lemma TokenRead(blob: seq<byte>, h: Header, at: nat, nodes: seq<string>) returns (tok: Tok)
    requires h.Fits(blob) && Token(blob, h, at, nodes, Nothing).Go?
    ensures At(blob, h, at, tok) && (tok.End? || tok.Prop? ==> nodes != [])
  {
    var word := Word(blob, at);
    if word == BEGIN_NODE {
      tok := Begin(CString(blob, at + 4, h.StructEnd()).value);
    } else if word == END_NODE {
      tok := End;
    } else if word == PROP {
      var p := ReadProperty(blob, h, at, nodes, Nothing).value;
      tok := Prop(p.name, p.value);
    } else {
      tok := Skip;
    }
  }

  /** What is read is what the format describes. */
  lemma {:induction false} ReaderSound(blob: seq<byte>, h: Header, at: nat, nodes: seq<string>, ps: seq<Property>)
    returns (toks: seq<Tok>)
    requires h.Fits(blob) && Walk(blob, h, at, nodes, Nothing) == Ok(ps)
    ensures Derives(blob, h, at, nodes, toks, ps)
    decreases h.StructEnd() - at
  {
    var m := Token(blob, h, at, nodes, Nothing);
    if m.Go? {
      var tok := TokenRead(blob, h, at, nodes);
      TokenOf(blob, h, at, nodes, tok);
      var rest := Walk(blob, h, m.next, m.nodes, Nothing).value;
      var more := ReaderSound(blob, h, m.next, m.nodes, rest);
      toks := [tok] + more;
      assert toks[1..] == more;
      assert ps == m.found + rest;
    } else {
      toks := [];
    }
  }

  /** The reader succeeds exactly on what the format describes, with exactly its stream. */
  lemma GrammarExact(blob: seq<byte>, h: Header, ps: seq<Property>)
    requires h.Fits(blob)
    ensures Walk(blob, h, h.structStart, [], Nothing) == Ok(ps) <==>
              exists toks :: Derives(blob, h, h.structStart, [], toks, ps)
  {
    if Walk(blob, h, h.structStart, [], Nothing) == Ok(ps) {
      var toks := ReaderSound(blob, h, h.structStart, [], ps);
    } else if toks :| Derives(blob, h, h.structStart, [], toks, ps) {
      ReaderAccepts(blob, h, h.structStart, [], toks, ps);
    }
  }
}
