/** The incremental installer: a manifest built without duplicate targets, and a
    recovery script that validates everything, stages everything, and only then
    moves the new files into place.  A file's hash is its content here.  This module
    holds the manifest and what it takes to validate; `InstallScript` is the rest. */
module Installer {
  import opened Bytes

  type Path = string
  type Content = seq<byte>
  type Files = map<Path, Content>

  datatype Entry = Payload(rel: Path, base: Content, update: Content)
                 | Verify(rel: Path, expected: Content)

  // ---- building the manifest

  datatype PayloadSpec = PayloadSpec(source: Content, target: Path, base: Content)
  datatype VerifySpec = VerifySpec(target: Path, expected: Content)

  datatype Built = Manifest(entries: seq<Entry>) | Died

  predicate StartsWith(s: string, prefix: string) {
    prefix <= s
  }

  predicate HasDotDot(s: string) {
    exists i :: 0 <= i < |s| - 1 && s[i] == '.' && s[i + 1] == '.'
  }

  const SYSTEM := "/system/"
  const POWER_HAL := SYSTEM + "vendor/bin/hw/android.hardware.power-service.m86"

  predicate AllowedTarget(t: Path) {
    && (StartsWith(t, SYSTEM + "lib/") || StartsWith(t, SYSTEM + "lib64/")
        || StartsWith(t, SYSTEM + "vendor/lib/") || StartsWith(t, SYSTEM + "vendor/lib64/") || t == POWER_HAL)
    && !HasDotDot(t) && '|' !in t && forall i :: 0 <= i < |t| ==> !IsSpace(t[i])
  }

  /** The space class of the C locale. */
  predicate IsSpace(c: char) {
    c == ' ' || '\t' <= c <= '\r'
  }

  /** The target without its `/system/` prefix. */
  function Relative(t: Path): Path {
    if StartsWith(t, SYSTEM) then t[|SYSTEM|..] else t
  }

  /** Every target was allowed and named once. */
  ghost predicate Sound(entries: seq<Entry>, declared: set<Path>) {
    && (forall i, j :: 0 <= i < j < |entries| ==> entries[i].rel != entries[j].rel)
    && (forall i :: 0 <= i < |entries| ==> Declares(declared, entries[i].rel))
    && (forall t :: t in declared ==> StartsWith(t, SYSTEM))
    && (forall i :: 0 <= i < |entries| && entries[i].Payload? ==> entries[i].update != [])
  }

  lemma PrefixOfPrefix(a: string, b: string, t: string)
    requires a + b <= t
    ensures a <= t
  {
    assert (a + b)[..|a|] == a;
  }

  lemma AllowedStartsWithSystem(t: Path)
    requires AllowedTarget(t)
    ensures StartsWith(t, SYSTEM)
  {
    if SYSTEM + "lib/" <= t {
      PrefixOfPrefix(SYSTEM, "lib/", t);
    } else if SYSTEM + "lib64/" <= t {
      PrefixOfPrefix(SYSTEM, "lib64/", t);
    } else if SYSTEM + "vendor/lib/" <= t {
      PrefixOfPrefix(SYSTEM, "vendor/lib/", t);
    } else if SYSTEM + "vendor/lib64/" <= t {
      PrefixOfPrefix(SYSTEM, "vendor/lib64/", t);
    }
  }

  ghost predicate Declares(declared: set<Path>, rel: Path) {
    exists t :: t in declared && Relative(t) == rel
  }

  lemma SoundMore(entries: seq<Entry>, declared: set<Path>, t: Path, e: Entry)
    requires Sound(entries, declared) && t !in declared && StartsWith(t, SYSTEM)
    requires e.rel == Relative(t) && (e.Payload? ==> e.update != [])
    ensures Sound(entries + [e], declared + {t})
  {
    var all := entries + [e];
    forall i | 0 <= i < |entries| ensures entries[i].rel != e.rel {
      assert Declares(declared, entries[i].rel);
      var u :| u in declared && Relative(u) == entries[i].rel;
      assert u == SYSTEM + Relative(u) && t == SYSTEM + Relative(t);
    }
    forall i | 0 <= i < |all| ensures Declares(declared + {t}, all[i].rel) {
      if i < |entries| {
        assert Declares(declared, entries[i].rel);
        var u :| u in declared && Relative(u) == entries[i].rel;
        assert u in declared + {t};
      } else {
        assert t in declared + {t};
      }
    }
  }

  /** The specifications as one list: the payloads, then the files to verify. */
  function TargetOf(payloads: seq<PayloadSpec>, verifies: seq<VerifySpec>, k: nat): Path
    requires k < |payloads| + |verifies|
  {
    if k < |payloads| then payloads[k].target else verifies[k - |payloads|].target
  }

  function EntryOf(payloads: seq<PayloadSpec>, verifies: seq<VerifySpec>, k: nat): Entry
    requires k < |payloads| + |verifies|
  {
    var rel := Relative(TargetOf(payloads, verifies, k));
    if k < |payloads| then Payload(rel, payloads[k].base, payloads[k].source)
    else Verify(rel, verifies[k - |payloads|].expected)
  }

  ghost predicate GoodSpec(payloads: seq<PayloadSpec>, verifies: seq<VerifySpec>, k: nat)
    requires k < |payloads| + |verifies|
  {
    AllowedTarget(TargetOf(payloads, verifies, k)) && (k < |payloads| ==> payloads[k].source != [])
  }

  /** Among the first `n`, every target is allowed and none is named twice, and every
      source has content. */
  ghost predicate Acceptable(payloads: seq<PayloadSpec>, verifies: seq<VerifySpec>, n: nat)
    requires n <= |payloads| + |verifies|
  {
    && (forall k :: 0 <= k < n ==> GoodSpec(payloads, verifies, k))
    && (forall j, k :: 0 <= j < k < n ==> TargetOf(payloads, verifies, j) != TargetOf(payloads, verifies, k))
  }

  /** The state after the first `n` specifications. */
  ghost predicate Taken(payloads: seq<PayloadSpec>, verifies: seq<VerifySpec>, n: nat,
                        entries: seq<Entry>, declared: set<Path>)
  {
    && n == |entries| <= |payloads| + |verifies|
    && Acceptable(payloads, verifies, n)
    && Sound(entries, declared)
    && (forall k :: 0 <= k < n ==> entries[k] == EntryOf(payloads, verifies, k))
    && (forall t :: t in declared <==> exists k :: 0 <= k < n && TargetOf(payloads, verifies, k) == t)
  }

  lemma TakenMore(payloads: seq<PayloadSpec>, verifies: seq<VerifySpec>, n: nat,
                  entries: seq<Entry>, declared: set<Path>)
    requires Taken(payloads, verifies, n, entries, declared) && n < |payloads| + |verifies|
    requires GoodSpec(payloads, verifies, n) && TargetOf(payloads, verifies, n) !in declared
    ensures Taken(payloads, verifies, n + 1,
                  entries + [EntryOf(payloads, verifies, n)], declared + {TargetOf(payloads, verifies, n)})
  {
    var t, e := TargetOf(payloads, verifies, n), EntryOf(payloads, verifies, n);
    AllowedStartsWithSystem(t);
    SoundMore(entries, declared, t, e);
  }

  lemma TakenStops(payloads: seq<PayloadSpec>, verifies: seq<VerifySpec>, n: nat,
                   entries: seq<Entry>, declared: set<Path>)
    requires Taken(payloads, verifies, n, entries, declared) && n < |payloads| + |verifies|
    requires !GoodSpec(payloads, verifies, n) || TargetOf(payloads, verifies, n) in declared
    ensures !Acceptable(payloads, verifies, |payloads| + |verifies|)
  {
  }

  method TakePayloads(payloads: seq<PayloadSpec>, ghost verifies: seq<VerifySpec>)
    returns (ok: bool, entries: seq<Entry>, declared: set<Path>)
    ensures ok ==> Taken(payloads, verifies, |payloads|, entries, declared)
    ensures !ok ==> !Acceptable(payloads, verifies, |payloads| + |verifies|)
  {
    declared, entries := {}, [];
    for i := 0 to |payloads|
      invariant Taken(payloads, verifies, i, entries, declared)
    {
      var p := payloads[i];
      assert TargetOf(payloads, verifies, i) == p.target;
      if !AllowedTarget(p.target) || p.target in declared || p.source == [] {
        TakenStops(payloads, verifies, i, entries, declared);
        return false, entries, declared;
      }
      TakenMore(payloads, verifies, i, entries, declared);
      declared := declared + {p.target};
      entries := entries + [Payload(Relative(p.target), p.base, p.source)];
    }
    ok := true;
  }

  method TakeVerifies(ghost payloads: seq<PayloadSpec>, verifies: seq<VerifySpec>,
                      entries0: seq<Entry>, declared0: set<Path>)
    returns (ok: bool, entries: seq<Entry>, declared: set<Path>)
    requires Taken(payloads, verifies, |payloads|, entries0, declared0)
    ensures ok ==> Taken(payloads, verifies, |payloads| + |verifies|, entries, declared)
    ensures !ok ==> !Acceptable(payloads, verifies, |payloads| + |verifies|)
  {
    entries, declared := entries0, declared0;
    for i := 0 to |verifies|
      invariant Taken(payloads, verifies, |payloads| + i, entries, declared)
    {
      var v := verifies[i];
      ghost var n := |payloads| + i;
      assert TargetOf(payloads, verifies, n) == v.target;
      if !AllowedTarget(v.target) || v.target in declared {
        TakenStops(payloads, verifies, n, entries, declared);
        return false, entries, declared;
      }
      TakenMore(payloads, verifies, n, entries, declared);
      declared := declared + {v.target};
      entries := entries + [Verify(Relative(v.target), v.expected)];
    }
    ok := true;
  }

  /** Stops exactly when some target is not allowed or repeated or some source is
      empty; otherwise there is one entry for each specification, in order, with the
      content to install, and no two entries are about the same file. */
  method BuildManifest(payloads: seq<PayloadSpec>, verifies: seq<VerifySpec>) returns (r: Built)
    ensures r.Manifest? <==> Acceptable(payloads, verifies, |payloads| + |verifies|)
    ensures r.Manifest? ==>
      && |r.entries| == |payloads| + |verifies|
      && (forall k :: 0 <= k < |r.entries| ==> r.entries[k] == EntryOf(payloads, verifies, k))
      && Distinct(r.entries)
  {
    var ok, entries, declared := TakePayloads(payloads, verifies);
    if !ok { return Died; }
    ok, entries, declared := TakeVerifies(payloads, verifies, entries, declared);
    if !ok { return Died; }
    r := Manifest(entries);
  }

  // ---- installing

  ghost predicate Distinct(m: seq<Entry>) {
    forall i, j :: 0 <= i < j < |m| ==> m[i].rel != m[j].rel
  }

  const SUFFIX := ".m86-incremental-v5.new."

  function TempOf(rel: Path, pid: string): Path {
    rel + SUFFIX + pid
  }

  ghost predicate IsTemp(m: seq<Entry>, pid: string, p: Path) {
    exists j :: 0 <= j < |m| && m[j].Payload? && p == TempOf(m[j].rel, pid)
  }

  /** No declared file has the name of a temporary of this run. */
  ghost predicate NoClash(m: seq<Entry>, pid: string) {
    forall i :: 0 <= i < |m| ==> !IsTemp(m, pid, m[i].rel)
  }

  /** The text of a process number. */
  predicate Decimal(s: string) {
    s != [] && s[0] != '0' && forall i :: 0 <= i < |s| ==> '0' <= s[i] <= '9'
  }

  /** `name` is what a run under some process number calls the temporary of `rel`. */
  predicate LooksTemporary(name: Path, rel: Path) {
    StartsWith(name, rel + SUFFIX) && Decimal(name[|rel + SUFFIX|..])
  }

  /** No declared name is a payload's name, the suffix and then a number: this can be
      read off the manifest, before any process number is known. */
  predicate NamesApart(m: seq<Entry>) {
    forall i, j :: 0 <= i < |m| && 0 <= j < |m| && m[j].Payload? ==> !LooksTemporary(m[i].rel, m[j].rel)
  }

  lemma LooksTemporaryIff(name: Path, rel: Path)
    ensures forall pid :: Decimal(pid) && name == TempOf(rel, pid) ==> LooksTemporary(name, rel)
    ensures LooksTemporary(name, rel) ==>
              var pid := name[|rel + SUFFIX|..]; Decimal(pid) && name == TempOf(rel, pid)
  {
    forall pid | Decimal(pid) && name == TempOf(rel, pid) ensures LooksTemporary(name, rel) {
      assert name[|rel + SUFFIX|..] == pid;
    }
  }

  lemma NamesApartIff(m: seq<Entry>)
    ensures NamesApart(m) <==> forall pid :: Decimal(pid) ==> NoClash(m, pid)
  {
    if NamesApart(m) {
      forall pid, i, j | Decimal(pid) && 0 <= i < |m| && 0 <= j < |m| && m[j].Payload?
        ensures m[i].rel != TempOf(m[j].rel, pid)
      {
        LooksTemporaryIff(m[i].rel, m[j].rel);
      }
    } else {
      var i, j :| 0 <= i < |m| && 0 <= j < |m| && m[j].Payload? && LooksTemporary(m[i].rel, m[j].rel);
      var pid := m[i].rel[|m[j].rel + SUFFIX|..];
      LooksTemporaryIff(m[i].rel, m[j].rel);
      assert IsTemp(m, pid, m[i].rel);
      assert !NoClash(m, pid);
    }
  }

  predicate Contains(s: string, part: string) {
    exists k :: 0 <= k <= |s| && StartsWith(s[k..], part)
  }

  lemma ContainsAfter(s: string, before: string, part: string)
    requires StartsWith(s, before + part)
    ensures Contains(s, part)
  {
    assert s[|before|..][..|part|] == (before + part)[|before|..] == part;
  }

  /** It is enough that no name contains the suffix at all. */
  lemma SuffixFree(m: seq<Entry>)
    ensures (forall i :: 0 <= i < |m| ==> !Contains(m[i].rel, SUFFIX)) ==> NamesApart(m)
  {
    if !NamesApart(m) {
      var i, j :| 0 <= i < |m| && 0 <= j < |m| && m[j].Payload? && LooksTemporary(m[i].rel, m[j].rel);
      ContainsAfter(m[i].rel, m[j].rel, SUFFIX);
    }
  }

  lemma TempInjective(a: Path, b: Path, pid: string)
    requires TempOf(a, pid) == TempOf(b, pid)
    ensures a == b
  {
    var x, y := TempOf(a, pid), TempOf(b, pid);
    assert |a| == |b|;
    assert x[..|a|] == a && y[..|b|] == b;
  }

  predicate ValidEntry(files: Files, payload: Files, e: Entry) {
    && e.rel in files && files[e.rel] != []
    && match e
       case Payload(rel, base, update) =>
         && rel in payload && payload[rel] == update && update != []
         && (files[rel] == base || files[rel] == update)
       case Verify(rel, expected) => files[rel] == expected
  }

  ghost predicate Validates(files: Files, payload: Files, m: seq<Entry>) {
    forall i :: 0 <= i < |m| ==> ValidEntry(files, payload, m[i])
  }

  method ValidateAll(files: Files, payload: Files, m: seq<Entry>) returns (code: nat)
    ensures code == 0 <==> Validates(files, payload, m)
    ensures code in {0, 23, 24, 25, 26, 27}
    ensures forall i :: 0 <= i < |m| && (forall k :: 0 <= k < i ==> ValidEntry(files, payload, m[k]))
                        && !ValidEntry(files, payload, m[i]) ==>
              code == (if m[i].rel !in files || files[m[i].rel] == [] then 23
                       else if m[i].Verify? then 27
                       else if m[i].rel !in payload || payload[m[i].rel] == [] then 24
                       else if payload[m[i].rel] != m[i].update then 25
                       else 26)
  {
    for i := 0 to |m|
      invariant forall k :: 0 <= k < i ==> ValidEntry(files, payload, m[k])
    {
      var e := m[i];
      if e.rel !in files || files[e.rel] == [] { assert !ValidEntry(files, payload, m[i]); return 23; }
      match e {
        case Payload(rel, base, update) =>
          if rel !in payload || payload[rel] == [] { assert !ValidEntry(files, payload, m[i]); return 24; }
          if payload[rel] != update { assert !ValidEntry(files, payload, m[i]); return 25; }
          if files[rel] != base && files[rel] != update { assert !ValidEntry(files, payload, m[i]); return 26; }
        case Verify(rel, expected) =>
          if files[rel] != expected { assert !ValidEntry(files, payload, m[i]); return 27; }
      }
    }
    code := 0;
  }
}
