/** A blob that keeps the stock contract, is patched, and is still turned down: its one
    empty secure-mode property has name offset 0, which differs from a NOP token in one
    byte only. */
module FdtExample {
  import opened Bytes
  import opened Fdt
  import opened FdtPatch
  import opened FdtTool
  import opened FdtGrammar

  const NODE := "spi@14d70000"
  const CHILD := "securefpc_spidev@0"

  const HEAD: seq<byte> :=
    [0xd0, 0x0d, 0xfe, 0xed, 0, 0, 0, 220]
    + [0, 0, 0, 92, 0, 0, 0, 40]
    + [0, 0, 0, 40, 0, 0, 0, 17]
    + [0, 0, 0, 16, 0, 0, 0, 0]
    + [0, 0, 0, 49, 0, 0, 0, 128]

  const STRINGS: seq<byte> :=
    [115, 101, 99, 117, 114, 101, 45, 109, 111, 100, 101, 0]
    + [99, 111, 109, 112, 97, 116, 105, 98, 108, 101, 0]
    + [103, 120, 44, 103, 112, 105, 111, 95, 105, 114, 113, 0]
    + [103, 120, 44, 103, 112, 105, 111, 95, 114, 101, 115, 101, 116, 0]
    + [0, 0, 0]

  const STRUCT: seq<byte> :=
    [0, 0, 0, 1, 0, 0, 0, 0]
    + [0, 0, 0, 1]
    + [115, 112, 105, 64, 49, 52, 100, 55, 48, 48, 48, 48, 0, 0, 0, 0]
    + [0, 0, 0, 3, 0, 0, 0, 0, 0, 0, 0, 0]
    + [0, 0, 0, 1]
    + [115, 101, 99, 117, 114, 101, 102, 112, 99, 95, 115, 112, 105, 100, 101, 118, 64, 48, 0, 0]
    + [0, 0, 0, 3, 0, 0, 0, 12, 0, 0, 0, 12]
    + [102, 112, 99, 44, 102, 112, 99, 95, 105, 114, 113, 0]
    + [0, 0, 0, 3, 0, 0, 0, 0, 0, 0, 0, 23]
    + [0, 0, 0, 3, 0, 0, 0, 0, 0, 0, 0, 35]
    + [0, 0, 0, 2, 0, 0, 0, 2, 0, 0, 0, 2, 0, 0, 0, 9]

  /** The header, the strings block at 40 and the structure block at 92. */
  const BLOB: seq<byte> := HEAD + STRINGS + STRUCT

  const HEADER := Header(220, 92, 40, 49, 128)

  // ---- one token at a time

  /** The plain walk from here finds these. */
  ghost predicate Finds(blob: seq<byte>, h: Header, at: nat, nodes: seq<string>, ps: seq<Property>) {
    h.Fits(blob) && Walk(blob, h, at, nodes, Nothing) == Ok(ps)
  }

  lemma OverToken(blob: seq<byte>, h: Header, at: nat, nodes: seq<string>, m: Move, rest: seq<Property>)
    requires h.Fits(blob) && m.Go? && Token(blob, h, at, nodes, Nothing) == m
    requires Finds(blob, h, m.next, m.nodes, rest)
    ensures Finds(blob, h, at, nodes, m.found + rest)
  {
    WalkGo(blob, h, at, nodes, Nothing, m, rest);
  }

  /** A node token with its name; the next token is at `next`. */
  ghost predicate Opens(blob: seq<byte>, h: Header, at: nat, name: string, next: nat) {
    && h.Fits(blob) && at + 4 <= h.StructEnd()
    && Word(blob, at) == BEGIN_NODE && CString(blob, at + 4, h.StructEnd()) == Ok(name)
    && next % 4 == 0 && at + 4 + |name| + 1 <= next < at + 4 + |name| + 5
  }

  lemma OverBegin(blob: seq<byte>, h: Header, at: nat, nodes: seq<string>, name: string, next: nat,
                  rest: seq<Property>)
    requires Opens(blob, h, at, name, next) && Finds(blob, h, next, nodes + [name], rest)
    ensures Finds(blob, h, at, nodes, rest)
  {
    AlignedTo(at + 4 + |name| + 1, next);
    OverToken(blob, h, at, nodes, Go(next, nodes + [name], []), rest);
    assert [] + rest == rest;
  }

  lemma OverEndNode(blob: seq<byte>, h: Header, at: nat, nodes: seq<string>, last: string, rest: seq<Property>)
    requires h.Fits(blob) && at + 4 <= h.StructEnd() && Word(blob, at) == END_NODE
    requires Finds(blob, h, at + 4, nodes, rest)
    ensures Finds(blob, h, at, nodes + [last], rest)
  {
    assert (nodes + [last])[..|nodes|] == nodes;
    OverToken(blob, h, at, nodes + [last], Go(at + 4, nodes, []), rest);
    assert [] + rest == rest;
  }

  /** A property token, its name at `nameOffset`; the next token is at `next`. */
  ghost predicate Has(blob: seq<byte>, h: Header, at: nat, name: string, nameOffset: nat, value: seq<byte>, next: nat) {
    && h.Fits(blob) && at + 12 + |value| <= h.StructEnd() && nameOffset < h.stringsSize
    && Word(blob, at) == PROP && Word(blob, at + 4) == |value| && Word(blob, at + 8) == nameOffset
    && CString(blob, h.stringsStart + nameOffset, h.StringsEnd()) == Ok(name)
    && blob[at + 12..at + 12 + |value|] == value
    && next % 4 == 0 && at + 12 + |value| <= next < at + 12 + |value| + 4
  }

  lemma PropertyIs(blob: seq<byte>, h: Header, at: nat, nodes: seq<string>, name: string, nameOffset: nat,
                   value: seq<byte>, next: nat)
    requires Has(blob, h, at, name, nameOffset, value, next) && nodes != []
    ensures ReadProperty(blob, h, at, nodes, Nothing) == Ok(Property(at, Path(nodes), name, value))
  {
  }

  lemma OverProperty(blob: seq<byte>, h: Header, at: nat, nodes: seq<string>, name: string, nameOffset: nat,
                     value: seq<byte>, next: nat, rest: seq<Property>)
    requires Has(blob, h, at, name, nameOffset, value, next) && nodes != []
    requires Finds(blob, h, next, nodes, rest)
    ensures Finds(blob, h, at, nodes, [Property(at, Path(nodes), name, value)] + rest)
  {
    var p := Property(at, Path(nodes), name, value);
    PropertyIs(blob, h, at, nodes, name, nameOffset, value, next);
    AlignedTo(at + 12 + |value|, next);
    OverToken(blob, h, at, nodes, Go(next, nodes, [p]), rest);
  }

  lemma AlignedTo(value: nat, next: nat)
    requires next % 4 == 0 && value <= next < value + 4
    ensures Align4(value) == next
  {
  }

  /** Three nodes are closed and the tree ends. */
  ghost predicate Closes(blob: seq<byte>, h: Header, at: nat) {
    && h.Fits(blob) && at + 16 <= h.StructEnd()
    && Word(blob, at) == END_NODE && Word(blob, at + 4) == END_NODE && Word(blob, at + 8) == END_NODE
    && Word(blob, at + 12) == END
  }

  lemma TailIs(blob: seq<byte>, h: Header, at: nat, nodes: seq<string>, a: string, b: string, c: string)
    requires Closes(blob, h, at) && nodes == []
    ensures Finds(blob, h, at, nodes + [a] + [b] + [c], [])
  {
    assert Token(blob, h, at + 12, nodes, Nothing) == Stop(Ok([]));
    OverEndNode(blob, h, at + 8, nodes, a, []);
    OverEndNode(blob, h, at + 4, nodes + [a], b, []);
    OverEndNode(blob, h, at, nodes + [a] + [b], c, []);
  }

  // ---- a tree that keeps the stock contract

  const COMPATIBLE: seq<byte> := [102, 112, 99, 44, 102, 112, 99, 95, 105, 114, 113, 0]

  ghost predicate ParentAt(blob: seq<byte>, h: Header, s: nat) {
    && Opens(blob, h, s, "", s + 8) && Opens(blob, h, s + 8, NODE, s + 28)
    && Has(blob, h, s + 28, SECURE_MODE, 0, [], s + 40)
    && Opens(blob, h, s + 40, CHILD, s + 64)
  }

  ghost predicate ChildAt(blob: seq<byte>, h: Header, at: nat) {
    && Has(blob, h, at, "compatible", 12, COMPATIBLE, at + 24)
    && Has(blob, h, at + 24, "gx,gpio_irq", 23, [], at + 36)
    && Has(blob, h, at + 36, "gx,gpio_reset", 35, [], at + 48)
    && Closes(blob, h, at + 48)
  }

  function PinProperties(at: nat, path: string): seq<Property> {
    [Property(at, path, "gx,gpio_irq", [])] + ([Property(at + 12, path, "gx,gpio_reset", [])] + [])
  }

  /** What the child holds. */
  function ChildProperties(at: nat, path: string): seq<Property> {
    [Property(at, path, "compatible", COMPATIBLE)] + PinProperties(at + 24, path)
  }

  lemma PinsIs(blob: seq<byte>, h: Header, at: nat, nodes: seq<string>, path: string)
    requires Has(blob, h, at, "gx,gpio_irq", 23, [], at + 12)
    requires Has(blob, h, at + 12, "gx,gpio_reset", 35, [], at + 24)
    requires nodes != [] && path == Path(nodes) && Finds(blob, h, at + 24, nodes, [])
    ensures Finds(blob, h, at, nodes, PinProperties(at, path))
  {
    OverProperty(blob, h, at + 12, nodes, "gx,gpio_reset", 35, [], at + 24, []);
    OverProperty(blob, h, at, nodes, "gx,gpio_irq", 23, [], at + 12,
                 [Property(at + 12, path, "gx,gpio_reset", [])] + []);
  }

  lemma ChildIs(blob: seq<byte>, h: Header, at: nat, nodes: seq<string>, path: string)
    requires Has(blob, h, at, "compatible", 12, COMPATIBLE, at + 24)
    requires nodes != [] && path == Path(nodes) && Finds(blob, h, at + 24, nodes, PinProperties(at + 24, path))
    ensures Finds(blob, h, at, nodes, ChildProperties(at, path))
  {
    OverProperty(blob, h, at, nodes, "compatible", 12, COMPATIBLE, at + 24, PinProperties(at + 24, path));
  }

  lemma OpenedTwice(blob: seq<byte>, h: Header, s: nat, nodes: seq<string>, a: string, b: string, ps: seq<Property>)
    requires Opens(blob, h, s, a, s + 8) && Opens(blob, h, s + 8, b, s + 28)
    requires Finds(blob, h, s + 28, nodes + [a] + [b], ps)
    ensures Finds(blob, h, s, nodes, ps)
  {
    OverBegin(blob, h, s + 8, nodes + [a], b, s + 28, ps);
    OverBegin(blob, h, s, nodes, a, s + 8, ps);
  }

  lemma ParentIs(blob: seq<byte>, h: Header, at: nat, nodes: seq<string>, child: string, path: string,
                 rest: seq<Property>)
    requires Has(blob, h, at, SECURE_MODE, 0, [], at + 12) && Opens(blob, h, at + 12, child, at + 36)
    requires nodes != [] && path == Path(nodes) && Finds(blob, h, at + 36, nodes + [child], rest)
    ensures Finds(blob, h, at, nodes, [Property(at, path, SECURE_MODE, [])] + rest)
  {
    OverBegin(blob, h, at + 12, nodes, child, at + 36, rest);
    OverProperty(blob, h, at, nodes, SECURE_MODE, 0, [], at + 12, rest);
  }

  function Properties(s: nat): seq<Property> {
    [Property(s + 28, SPI_PATH, SECURE_MODE, [])] + ChildProperties(s + 64, FPC_PATH)
  }

  lemma JoinedSnoc(nodes: seq<string>, last: string)
    ensures Joined(nodes + [last]) ==
              if last == "" then Joined(nodes) else if Joined(nodes) == "" then last else Joined(nodes) + "/" + last
  {
    assert (nodes + [last])[..|nodes|] == nodes;
  }

  lemma Paths(nodes: seq<string>, a: string, b: string, c: string)
    requires nodes == [] && a == "" && b == NODE && c == CHILD
    ensures Path(nodes + [a] + [b]) == SPI_PATH && Path(nodes + [a] + [b] + [c]) == FPC_PATH
  {
    JoinedSnoc(nodes, a);
    JoinedSnoc(nodes + [a], b);
    JoinedSnoc(nodes + [a] + [b], c);
    assert "/" + NODE == SPI_PATH;
    assert "/" + (NODE + "/" + CHILD) == FPC_PATH;
  }

  lemma TreeIs(blob: seq<byte>, h: Header, s: nat, nodes: seq<string>)
    requires ParentAt(blob, h, s) && ChildAt(blob, h, s + 64) && nodes == []
    ensures Finds(blob, h, s, nodes, Properties(s))
  {
    var a, b, c := "", NODE, CHILD;
    Paths(nodes, a, b, c);
    TailIs(blob, h, s + 112, nodes, a, b, c);
    PinsIs(blob, h, s + 88, nodes + [a] + [b] + [c], FPC_PATH);
    ChildIs(blob, h, s + 64, nodes + [a] + [b] + [c], FPC_PATH);
    ParentIs(blob, h, s + 28, nodes + [a] + [b], c, SPI_PATH, ChildProperties(s + 64, FPC_PATH));
    OpenedTwice(blob, h, s, nodes, a, b, Properties(s));
  }

  lemma PlainRead(blob: seq<byte>, h: Header, nodes: seq<string>, ps: seq<Property>) returns (tree: Tree)
    requires ParseHeader(blob) == Ok(h) && nodes == [] && Finds(blob, h, h.structStart, nodes, ps)
    ensures Reads(blob, h, Nothing, tree) && tree.properties == ps && tree.dict == Dict(ps)
  {
    tree := ReadTree(blob, Nothing).value;
  }

  // ---- what main thinks of it

  lemma DictEmpty()
    ensures Dict([]) == map[]
  {
  }

  lemma ContractKept(s: nat)
    ensures StockContract(Dict(Properties(s)))
  {
    var at := s + 64;
    var p1 := Property(s + 28, SPI_PATH, SECURE_MODE, []);
    var p2 := Property(at, FPC_PATH, "compatible", COMPATIBLE);
    var p3 := Property(at + 24, FPC_PATH, "gx,gpio_irq", []);
    var p4 := Property(at + 36, FPC_PATH, "gx,gpio_reset", []);
    assert Properties(s) == [] + [p1] + [p2] + [p3] + [p4];
    DistinctNames();
    DictEmpty();
    forall path ensures Lookup(Dict(Properties(s)), path) ==
                        (if path == SPI_PATH then map[SECURE_MODE := []]
                         else if path == FPC_PATH then
                           map["compatible" := COMPATIBLE, "gx,gpio_irq" := [], "gx,gpio_reset" := []]
                         else map[])
    {
      DictSnoc([], p1, path);
      DictSnoc([] + [p1], p2, path);
      DictSnoc([] + [p1] + [p2], p3, path);
      DictSnoc([] + [p1] + [p2] + [p3], p4, path);
    }
    CompatibleValue();
  }

  lemma DistinctNames()
    ensures SPI_PATH != FPC_PATH && SECURE_MODE != "compatible"
    ensures "compatible" != "gx,gpio_irq" && "compatible" != "gx,gpio_reset" && "gx,gpio_irq" != "gx,gpio_reset"
  {
    assert |SPI_PATH| != |FPC_PATH| && |SECURE_MODE| != |"compatible"|;
    assert |"compatible"| != |"gx,gpio_irq"| && |"compatible"| != |"gx,gpio_reset"|;
    assert |"gx,gpio_irq"| != |"gx,gpio_reset"|;
  }

  lemma CompatibleValue()
    ensures Chars("fpc,fpc_irq\0") == COMPATIBLE
  {
  }

  lemma OneEmptyTarget(s: nat)
    ensures Targets(SPI_SECURE_MODE, Properties(s)) == [s + 28]
    ensures !HasValue(SPI_SECURE_MODE, Properties(s))
  {
    var at := s + 64;
    var p1 := Property(s + 28, SPI_PATH, SECURE_MODE, []);
    var p2 := Property(at, FPC_PATH, "compatible", COMPATIBLE);
    var p3 := Property(at + 24, FPC_PATH, "gx,gpio_irq", []);
    var p4 := Property(at + 36, FPC_PATH, "gx,gpio_reset", []);
    assert Properties(s) == [] + [p1] + [p2] + [p3] + [p4];
    DistinctNames();
    TargetsSnoc(SPI_SECURE_MODE, [], p1);
    TargetsSnoc(SPI_SECURE_MODE, [] + [p1], p2);
    TargetsSnoc(SPI_SECURE_MODE, [] + [p1] + [p2], p3);
    TargetsSnoc(SPI_SECURE_MODE, [] + [p1] + [p2] + [p3], p4);
  }

  lemma NameOffsetDiffs(blob: seq<byte>, at: nat)
    requires at + 12 <= |blob| && Word(blob, at + 8) == 0
    ensures NameDiffs(blob, at) == 1
  {
    var name := blob[at + 8..at + 12];
    assert name == [0, 0, 0, 0];
    assert Diffs([0, 0, 0, 0], [0, 0, 0, 4]) == 1;
  }

  lemma TreeVerdict(blob: seq<byte>, plain: Tree, s: nat)
    requires plain.properties == Properties(s) && plain.dict == Dict(Properties(s))
    requires s + 40 <= |blob| && Word(blob, s + 36) == 0
    ensures Verdict(blob, plain) == Err(WrongFootprint)
  {
    ContractKept(s);
    OneEmptyTarget(s);
    NameOffsetDiffs(blob, s + 28);
  }

  lemma BuildSays(blob: seq<byte>, h: Header, plain: Tree)
    requires Reads(blob, h, Nothing, plain) && h.Disjoint() && |blob| == h.totalSize
    ensures Build(blob, true) == Verdict(blob, plain)
  {
    BuildExact(blob, h);
    assert blob[..h.totalSize] == blob;
  }

  /** Any blob with such a tree is read ... */
  lemma TreeRead(blob: seq<byte>, h: Header, s: nat, nodes: seq<string>) returns (plain: Tree)
    requires ParseHeader(blob) == Ok(h) && s == h.structStart && nodes == []
    requires ParentAt(blob, h, s) && ChildAt(blob, h, s + 64)
    ensures Reads(blob, h, Nothing, plain)
    ensures plain.properties == Properties(s) && plain.dict == Dict(Properties(s))
  {
    TreeIs(blob, h, s, nodes);
    plain := PlainRead(blob, h, nodes, Properties(s));
  }

  /** ... and, if its blocks are disjoint, refused for its footprint. */
  lemma TreeRefused(blob: seq<byte>, h: Header, s: nat, plain: Tree)
    requires Reads(blob, h, Nothing, plain) && h.Disjoint() && |blob| == h.totalSize
    requires plain.properties == Properties(s) && plain.dict == Dict(Properties(s))
    requires s + 40 <= |blob| && Word(blob, s + 36) == 0
    ensures Build(blob, true) == Err(WrongFootprint)
  {
    TreeVerdict(blob, plain, s);
    BuildSays(blob, h, plain);
  }

  // ---- the blob

  lemma BlobHeader()
    ensures |BLOB| == 220 && ParseHeader(BLOB) == Ok(HEADER)
  {
    assert Word(BLOB, 0) == MAGIC;
    assert Word(BLOB, 4) == 220;
    assert Word(BLOB, 8) == 92 && Word(BLOB, 12) == 40;
    assert Word(BLOB, 32) == 49 && Word(BLOB, 36) == 128;
  }

  lemma BlobFits()
    ensures |BLOB| == 220 && HEADER.Fits(BLOB)
  {
  }

  lemma BlobNodes()
    ensures |BLOB| == 220
    ensures Word(BLOB, 92) == BEGIN_NODE && Word(BLOB, 100) == BEGIN_NODE && Word(BLOB, 132) == BEGIN_NODE
  {
  }

  lemma BlobEnds()
    ensures Closes(BLOB, HEADER, 204)
  {
  }

  lemma BlobSecureMode()
    ensures |BLOB| == 220 && Word(BLOB, 120) == PROP && Word(BLOB, 124) == 0 && Word(BLOB, 128) == 0
  {
  }

  lemma BlobCompatible()
    ensures |BLOB| == 220 && Word(BLOB, 156) == PROP && Word(BLOB, 160) == 12 && Word(BLOB, 164) == 12
    ensures BLOB[168..180] == COMPATIBLE
  {
  }

  lemma BlobPins()
    ensures |BLOB| == 220
    ensures Word(BLOB, 180) == PROP && Word(BLOB, 184) == 0 && Word(BLOB, 188) == 23
    ensures Word(BLOB, 192) == PROP && Word(BLOB, 196) == 0 && Word(BLOB, 200) == 35
  {
  }

  /** A NUL-ended string that stands in the blob. */
  lemma NameAt(blob: seq<byte>, from: nat, limit: nat, text: string, bytes: seq<byte>)
    requires from + |text| < limit <= |blob| && |bytes| == |text| + 1 && blob[from..from + |bytes|] == bytes
    requires bytes[|text|] == 0
    requires forall i :: 0 <= i < |text| ==> 0 < text[i] as int < 128 && bytes[i] == text[i] as int
    ensures CString(blob, from, limit) == Ok(text)
  {
    forall i | 0 <= i < |bytes| ensures blob[from + i] == bytes[i] {
      assert blob[from + i] == blob[from..from + |bytes|][i];
    }
    CStringIs(blob, from, limit, text);
  }

  lemma NodeNames()
    ensures |BLOB| == 220
    ensures CString(BLOB, 96, 220) == Ok("") && CString(BLOB, 104, 220) == Ok(NODE)
  {
    CStringIs(BLOB, 96, 220, "");
    assert STRUCT[12..25] == [115, 112, 105, 64, 49, 52, 100, 55, 48, 48, 48, 48, 0];
    assert BLOB[104..117] == STRUCT[12..25];
    NameAt(BLOB, 104, 220, NODE, [115, 112, 105, 64, 49, 52, 100, 55, 48, 48, 48, 48, 0]);
  }

  lemma ChildName()
    ensures |BLOB| == 220 && CString(BLOB, 136, 220) == Ok(CHILD)
  {
    assert STRUCT[44..63]
        == [115, 101, 99, 117, 114, 101, 102, 112, 99, 95, 115, 112, 105, 100, 101, 118, 64, 48, 0];
    assert BLOB[136..155] == STRUCT[44..63];
    NameAt(BLOB, 136, 220, CHILD,
           [115, 101, 99, 117, 114, 101, 102, 112, 99, 95, 115, 112, 105, 100, 101, 118, 64, 48, 0]);
  }

  lemma SecureModeName()
    ensures |BLOB| == 220 && CString(BLOB, 40, 89) == Ok(SECURE_MODE)
  {
    NameAt(BLOB, 40, 89, SECURE_MODE, [115, 101, 99, 117, 114, 101, 45, 109, 111, 100, 101, 0]);
  }

  lemma CompatibleName()
    ensures |BLOB| == 220 && CString(BLOB, 52, 89) == Ok("compatible")
  {
    NameAt(BLOB, 52, 89, "compatible", [99, 111, 109, 112, 97, 116, 105, 98, 108, 101, 0]);
  }

  lemma IrqName()
    ensures |BLOB| == 220 && CString(BLOB, 63, 89) == Ok("gx,gpio_irq")
  {
    NameAt(BLOB, 63, 89, "gx,gpio_irq", [103, 120, 44, 103, 112, 105, 111, 95, 105, 114, 113, 0]);
  }

  lemma ResetName()
    ensures |BLOB| == 220 && CString(BLOB, 75, 89) == Ok("gx,gpio_reset")
  {
    NameAt(BLOB, 75, 89, "gx,gpio_reset", [103, 120, 44, 103, 112, 105, 111, 95, 114, 101, 115, 101, 116, 0]);
  }

  /** The facts about one property, put together. */
  lemma HasIs(blob: seq<byte>, h: Header, at: nat, name: string, nameOffset: nat, value: seq<byte>, next: nat)
    requires h.Fits(blob) && at + 12 + |value| <= h.StructEnd() && nameOffset < h.stringsSize
    requires Word(blob, at) == PROP && Word(blob, at + 4) == |value| && Word(blob, at + 8) == nameOffset
    requires CString(blob, h.stringsStart + nameOffset, h.StringsEnd()) == Ok(name)
    requires blob[at + 12..at + 12 + |value|] == value
    requires next % 4 == 0 && at + 12 + |value| <= next < at + 12 + |value| + 4
    ensures Has(blob, h, at, name, nameOffset, value, next)
  {
  }

  lemma BlobHasSecureMode()
    ensures Has(BLOB, HEADER, 120, SECURE_MODE, 0, [], 132)
  {
    BlobFits();
    BlobSecureMode();
    SecureModeName();
    HasIs(BLOB, HEADER, 120, SECURE_MODE, 0, [], 132);
  }

  lemma BlobHasCompatible()
    ensures Has(BLOB, HEADER, 156, "compatible", 12, COMPATIBLE, 180)
  {
    BlobFits();
    BlobCompatible();
    CompatibleName();
    HasIs(BLOB, HEADER, 156, "compatible", 12, COMPATIBLE, 180);
  }

  lemma BlobHasIrq()
    ensures Has(BLOB, HEADER, 180, "gx,gpio_irq", 23, [], 192)
  {
    BlobFits();
    BlobPins();
    IrqName();
    HasIs(BLOB, HEADER, 180, "gx,gpio_irq", 23, [], 192);
  }

  lemma BlobHasReset()
    ensures Has(BLOB, HEADER, 192, "gx,gpio_reset", 35, [], 204)
  {
    BlobFits();
    BlobPins();
    ResetName();
    HasIs(BLOB, HEADER, 192, "gx,gpio_reset", 35, [], 204);
  }

  lemma BlobOpens()
    ensures Opens(BLOB, HEADER, 92, "", 100) && Opens(BLOB, HEADER, 100, NODE, 120)
    ensures Opens(BLOB, HEADER, 132, CHILD, 156)
  {
    BlobFits();
    BlobNodes();
    NodeNames();
    ChildName();
  }

  /** The blob's blocks are disjoint, it keeps the stock contract and has one empty
      secure-mode; main patches it and then refuses its own output, because three bytes
      changed instead of four. */
  lemma FootprintCheckFails()
    ensures ParseHeader(BLOB) == Ok(HEADER) && HEADER.Disjoint()
    ensures Build(BLOB, true) == Err(WrongFootprint)
  {
    BlobHeader();
    BlobOpens();
    BlobHasSecureMode();
    BlobHasCompatible();
    BlobHasIrq();
    BlobHasReset();
    BlobEnds();
    var plain := TreeRead(BLOB, HEADER, 92, []);
    BlobSecureMode();
    TreeRefused(BLOB, HEADER, 92, plain);
  }
}
