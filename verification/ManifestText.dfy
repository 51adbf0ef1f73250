/** The manifest as a file: the builder prints one line for each entry, with bars between
    the fields, and the script reads it line by line and field by field.  What the
    builder allows in a target is what this needs. */
module ManifestText {
  import opened Bytes
  import opened Installer

  datatype Row = Row(kind: string, rel: Path, base: string, update: string)

  function Line(r: Row): string {
    r.kind + "|" + (r.rel + "|" + (r.base + "|" + r.update))
  }

  function Text(rows: seq<Row>): string {
    if rows == [] then "" else Line(rows[0]) + "\n" + Text(rows[1..])
  }

  /** What stands before the first `c`, and what after it. */
  function Cut(s: string, c: char): (r: (string, string))
    ensures |r.0| <= |s| && |r.1| <= |s| && (s != "" ==> |r.1| < |s|)
  {
    if s == "" then ("", "")
    else if s[0] == c then ("", s[1..])
    else
      var rest := Cut(s[1..], c);
      ([s[0]] + rest.0, rest.1)
  }

  /** The fields of one line; the last takes what is left. */
  function Fields(line: string): Row {
    var kind := Cut(line, '|');
    var rel := Cut(kind.1, '|');
    var base := Cut(rel.1, '|');
    Row(kind.0, rel.0, base.0, base.1)
  }

  function Rows(text: string): seq<Row>
    decreases |text|
  {
    if text == "" then []
    else
      var line := Cut(text, '\n');
      [Fields(line.0)] + Rows(line.1)
  }

  lemma {:induction false} CutAt(a: string, c: char, b: string)
    requires c !in a
    ensures Cut(a + [c] + b, c) == (a, b)
  {
    var s := a + [c] + b;
    if a == "" {
      assert s[1..] == b;
    } else {
      assert s[1..] == a[1..] + [c] + b && s[0] == a[0];
      CutAt(a[1..], c, b);
      assert [a[0]] + a[1..] == a;
    }
  }

  ghost predicate Clean(s: string) {
    '|' !in s && '\n' !in s
  }

  ghost predicate CleanRow(r: Row) {
    Clean(r.kind) && Clean(r.rel) && Clean(r.base) && Clean(r.update)
  }

  lemma FieldsOfLine(r: Row)
    requires CleanRow(r)
    ensures Fields(Line(r)) == r && '\n' !in Line(r)
  {
    CutAt(r.kind, '|', r.rel + "|" + (r.base + "|" + r.update));
    CutAt(r.rel, '|', r.base + "|" + r.update);
    CutAt(r.base, '|', r.update);
  }

  /** The script reads back exactly the rows that were printed. */
  lemma {:induction false} ManifestRoundTrip(rows: seq<Row>)
    requires forall i :: 0 <= i < |rows| ==> CleanRow(rows[i])
    ensures Rows(Text(rows)) == rows
  {
    if rows != [] {
      FieldsOfLine(rows[0]);
      CutAt(Line(rows[0]), '\n', Text(rows[1..]));
      ManifestRoundTrip(rows[1..]);
    }
  }

  /** What an allowed target is: below one of the four library directories or the power
      HAL itself, with no way up, and nothing in it that the manifest gives a meaning. */
  lemma AllowedIsClean(t: Path)
    requires AllowedTarget(t)
    ensures Clean(t) && Clean(Relative(t))
    ensures forall i :: 0 <= i < |t| - 1 ==> !(t[i] == '.' && t[i + 1] == '.')
    ensures || "/system/lib/" <= t || "/system/lib64/" <= t
            || "/system/vendor/lib/" <= t || "/system/vendor/lib64/" <= t
            || t == SYSTEM + "vendor/bin/hw/android.hardware.power-service.m86"
  {
    Prefixes();
    assert forall i :: 0 <= i < |t| ==> !IsSpace(t[i]);
  }

  lemma Prefixes()
    ensures SYSTEM + "lib/" == "/system/lib/" && SYSTEM + "lib64/" == "/system/lib64/"
    ensures SYSTEM + "vendor/lib/" == "/system/vendor/lib/" && SYSTEM + "vendor/lib64/" == "/system/vendor/lib64/"
  {
  }

  ghost predicate Hex(s: string) {
    forall i :: 0 <= i < |s| ==> '0' <= s[i] <= '9' || 'a' <= s[i] <= 'f'
  }

  lemma HexIsClean(s: string)
    requires Hex(s)
    ensures Clean(s)
  {
  }

  /** The row of an entry, with the digests as they may be. */
  ghost predicate IsRow(r: Row, e: Entry) {
    r.kind == (if e.Payload? then "P" else "V") && r.rel == e.rel && Hex(r.base) && Hex(r.update)
  }

  lemma RowIsClean(r: Row, e: Entry, t: Path)
    requires IsRow(r, e) && AllowedTarget(t) && e.rel == Relative(t)
    ensures CleanRow(r)
  {
    AllowedIsClean(t);
    HexIsClean(r.base);
    HexIsClean(r.update);
  }

  lemma EntryTarget(payloads: seq<PayloadSpec>, verifies: seq<VerifySpec>, k: nat)
    requires k < |payloads| + |verifies| && Acceptable(payloads, verifies, |payloads| + |verifies|)
    ensures EntryOf(payloads, verifies, k).rel == Relative(TargetOf(payloads, verifies, k))
    ensures AllowedTarget(TargetOf(payloads, verifies, k))
  {
    assert GoodSpec(payloads, verifies, k);
  }

  /** The rows of accepted specifications, whatever digests they carry, survive the file. */
  lemma BuiltManifestReadsBack(payloads: seq<PayloadSpec>, verifies: seq<VerifySpec>, rows: seq<Row>)
    requires Acceptable(payloads, verifies, |payloads| + |verifies|) && |rows| == |payloads| + |verifies|
    requires forall k :: 0 <= k < |rows| ==> IsRow(rows[k], EntryOf(payloads, verifies, k))
    ensures Rows(Text(rows)) == rows
  {
    forall k | 0 <= k < |rows| ensures CleanRow(rows[k]) {
      EntryTarget(payloads, verifies, k);
      RowIsClean(rows[k], EntryOf(payloads, verifies, k), TargetOf(payloads, verifies, k));
    }
    ManifestRoundTrip(rows);
  }

  /** Why a bar is not allowed: the line would be read as one about another file. */
  lemma BarMisread(kind: string, rel: Path, tail: string, base: string, update: string)
    requires Clean(kind) && Clean(rel)
    ensures Fields(Line(Row(kind, rel + "|" + tail, base, update))).rel == rel
  {
    var rest := tail + "|" + (base + "|" + update);
    assert rel + "|" + tail + "|" + (base + "|" + update) == rel + "|" + rest;
    CutAt(kind, '|', rel + "|" + rest);
    CutAt(rel, '|', rest);
  }
}
