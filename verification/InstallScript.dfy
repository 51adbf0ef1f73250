/** The installer's script after its checks: stage every payload under a temporary
    name, then move them into place, and clean up on exit.  A list of outcomes, one
    for each command, is given from outside; an interruption is a list that ends, or
    a command that dies (a copy that dies leaves part of the file). */
module InstallScript {
  import opened Bytes
  import opened Installer

  datatype Outcome = Works | Fails(part: nat) | Dies(part: nat)

  /** An exit code of the script, or the end of the machine. */
  datatype End = Exit(code: nat) | Interrupted

  // ---- what the script does to the files

  /** The state in which a part of the script ends, and the outcomes left over. */
  datatype Run = Run(end: End, files: Files, rest: seq<Outcome>)

  function Take(c: Content, part: nat): Content {
    if part < |c| then c[..part] else c
  }

  /** The commands after the copy: owner, mode, context and comparison. */
  function Follow(files: Files, script: seq<Outcome>, k: nat): Run
    requires 1 <= k <= 5
    decreases 5 - k
  {
    if k == 5 then Run(Exit(0), files, if |script| < 5 then [] else script[5..])
    else if k >= |script| || script[k].Dies? then Run(Interrupted, files, [])
    else if script[k].Fails? then Run(Exit(31 + k), files, if |script| < 5 then [] else script[5..])
    else Follow(files, script, k + 1)
  }

  function StageOne(files: Files, source: Content, temporary: Path, script: seq<Outcome>): Run {
    if script == [] then Run(Interrupted, files, [])
    else
      var copied := files[temporary := if script[0].Works? then source else Take(source, script[0].part)];
      if script[0].Dies? then Run(Interrupted, copied, [])
      else if script[0].Fails? then Run(Exit(31), copied, script[1..])
      else Follow(copied, script, 1)
  }

  /** `listed` is how far the staged list got. */
  datatype Staging = Staging(end: End, files: Files, rest: seq<Outcome>, listed: nat)

  function Stage(files: Files, m: seq<Entry>, pid: string, script: seq<Outcome>, i: nat): (s: Staging)
    requires i <= |m|
    ensures s.listed <= |m| && (s.end == Exit(0) ==> s.listed == |m|)
    decreases |m| - i
  {
    if i == |m| then Staging(Exit(0), files, script, i)
    else if m[i].Verify? then Stage(files, m, pid, script, i + 1)
    else
      var r := StageOne(files, m[i].update, TempOf(m[i].rel, pid), script);
      if r.end != Exit(0) then Staging(r.end, r.files, r.rest, i)
      else Stage(r.files, m, pid, r.rest, i + 1)
  }

  function MoveInto(files: Files, from: Path, to: Path): Files
    requires from in files
  {
    (files - {from})[to := files[from]]
  }

  /** A rename needs its source; the moved file is compared with what was announced. */
  function Commit(files: Files, m: seq<Entry>, pid: string, script: seq<Outcome>, i: nat): Run
    requires i <= |m|
    decreases |m| - i
  {
    if i == |m| then Run(Exit(0), files, script)
    else if m[i].Verify? then Commit(files, m, pid, script, i + 1)
    else
      var t := TempOf(m[i].rel, pid);
      if script == [] || script[0].Dies? then Run(Interrupted, files, [])
      else if script[0].Fails? || t !in files then Run(Exit(36), files, script[1..])
      else if files[t] != m[i].update then Run(Exit(37), MoveInto(files, t, m[i].rel), script[1..])
      else Commit(MoveInto(files, t, m[i].rel), m, pid, script[1..], i + 1)
  }

  /** The exit trap: the temporaries on the staged list are removed. */
  function Cleaned(files: Files, m: seq<Entry>, pid: string, n: nat): Files
    requires n <= |m|
  {
    if n == 0 then files
    else
      var before := Cleaned(files, m, pid, n - 1);
      if m[n - 1].Payload? then before - {TempOf(m[n - 1].rel, pid)} else before
  }

  datatype Ran = Ran(end: End, files: Files, committing: bool)

  /** The script from the remount on. */
  function Script(files: Files, m: seq<Entry>, pid: string, writable: bool, script: seq<Outcome>): Ran {
    if !writable then Ran(Exit(30), files, false)
    else
      var s := Stage(files, m, pid, script, 0);
      if s.end == Interrupted then Ran(Interrupted, s.files, false)
      else if s.end != Exit(0) then
        Ran(s.end, Cleaned(s.files, m, pid, s.listed), false)
      else
        var c := Commit(s.files, m, pid, s.rest, 0);
        if c.end == Exit(0) || c.end == Interrupted then Ran(c.end, c.files, true)
        else Ran(c.end, Cleaned(c.files, m, pid, |m|), true)
  }

  // ---- the loops

  method StageAll(files: Files, payload: Files, m: seq<Entry>, pid: string, script: seq<Outcome>)
    returns (s: Staging)
    requires forall i :: 0 <= i < |m| && m[i].Payload? ==> m[i].rel in payload && payload[m[i].rel] == m[i].update
    ensures s == Stage(files, m, pid, script, 0)
  {
    var after, rest := files, script;
    for i := 0 to |m|
      invariant Stage(files, m, pid, script, 0) == Stage(after, m, pid, rest, i)
    {
      if m[i].Payload? {
        var source := payload[m[i].rel];
        var temporary := TempOf(m[i].rel, pid);
        var r := StageOne(after, source, temporary, rest);
        if r.end != Exit(0) {
          return Staging(r.end, r.files, r.rest, i);
        }
        after, rest := r.files, r.rest;
      }
    }
    s := Staging(Exit(0), after, rest, |m|);
  }

  method CommitAll(files: Files, m: seq<Entry>, pid: string, script: seq<Outcome>) returns (r: Run)
    ensures r == Commit(files, m, pid, script, 0)
  {
    var after, rest := files, script;
    for i := 0 to |m|
      invariant Commit(files, m, pid, script, 0) == Commit(after, m, pid, rest, i)
    {
      if m[i].Payload? {
        var temporary := TempOf(m[i].rel, pid);
        if rest == [] || rest[0].Dies? { return Run(Interrupted, after, []); }
        if rest[0].Fails? || temporary !in after { return Run(Exit(36), after, rest[1..]); }
        after := MoveInto(after, temporary, m[i].rel);
        rest := rest[1..];
        if after[m[i].rel] != m[i].update { return Run(Exit(37), after, rest); }
      }
    }
    r := Run(Exit(0), after, rest);
  }

  method Cleanup(files: Files, m: seq<Entry>, pid: string, listed: nat) returns (after: Files)
    requires listed <= |m|
    ensures after == Cleaned(files, m, pid, listed)
  {
    after := files;
    for i := 0 to listed
      invariant after == Cleaned(files, m, pid, i)
    {
      if m[i].Payload? {
        after := after - {TempOf(m[i].rel, pid)};
      }
    }
  }

  // ---- staging

  /** Only temporaries of this run may differ. */
  ghost predicate OnlyTemps(before: Files, after: Files, m: seq<Entry>, pid: string) {
    forall p :: !IsTemp(m, pid, p) ==> (p in after <==> p in before) && (p in after ==> after[p] == before[p])
  }

  /** The first `n` payloads are staged. */
  ghost predicate Staged(files: Files, m: seq<Entry>, pid: string, n: nat) {
    forall j :: 0 <= j < n && j < |m| && m[j].Payload? ==>
      var t := TempOf(m[j].rel, pid); t in files && files[t] == m[j].update
  }

  predicate AllWork(script: seq<Outcome>) {
    forall i :: 0 <= i < |script| ==> script[i].Works?
  }

  lemma FollowKeeps(files: Files, script: seq<Outcome>, k: nat)
    requires 1 <= k <= 5 && k <= |script|
    ensures var r := Follow(files, script, k);
            && r.files == files
            && (r.end.Exit? ==> r.end.code in {0, 32, 33, 34, 35})
            && (r.end == Exit(0) ==> |script| >= 5 && r.rest == script[5..])
            && (AllWork(script) && |script| >= 5 ==> r.end == Exit(0))
    decreases 5 - k
  {
    if k < 5 && k < |script| && script[k].Works? {
      FollowKeeps(files, script, k + 1);
    }
  }

  /** One copy and its follow-up commands touch the temporary alone. */
  lemma StageOneKeeps(files: Files, source: Content, t: Path, script: seq<Outcome>)
    ensures var r := StageOne(files, source, t, script);
            && (forall p :: p != t ==> (p in r.files <==> p in files) && (p in files ==> r.files[p] == files[p]))
            && (r.end.Exit? ==> r.end.code in {0, 31, 32, 33, 34, 35})
            && (r.end == Exit(0) ==>
                  |script| >= 5 && r.rest == script[5..] && t in r.files && r.files[t] == source)
            && (AllWork(script) && |script| >= 5 ==> r.end == Exit(0))
  {
    if script != [] {
      var copied := files[t := if script[0].Works? then source else Take(source, script[0].part)];
      FollowKeeps(copied, script, 1);
    }
  }

  lemma TempsDiffer(m: seq<Entry>, pid: string, i: nat, j: nat)
    requires Distinct(m) && i < |m| && j < |m| && i != j
    ensures TempOf(m[i].rel, pid) != TempOf(m[j].rel, pid)
  {
    if TempOf(m[i].rel, pid) == TempOf(m[j].rel, pid) {
      TempInjective(m[i].rel, m[j].rel, pid);
    }
  }

  lemma StagedOneMore(files: Files, m: seq<Entry>, pid: string, script: seq<Outcome>, i: nat)
    requires Distinct(m) && i < |m| && m[i].Payload? && Staged(files, m, pid, i)
    ensures var r := StageOne(files, m[i].update, TempOf(m[i].rel, pid), script);
            OnlyTemps(files, r.files, m, pid) && (r.end == Exit(0) ==> Staged(r.files, m, pid, i + 1))
  {
    StageOneKeeps(files, m[i].update, TempOf(m[i].rel, pid), script);
    assert IsTemp(m, pid, TempOf(m[i].rel, pid));
    forall j | 0 <= j < i && m[j].Payload? ensures TempOf(m[j].rel, pid) != TempOf(m[i].rel, pid) {
      TempsDiffer(m, pid, i, j);
    }
  }

  lemma OnlyTempsTransitive(a: Files, b: Files, c: Files, m: seq<Entry>, pid: string)
    requires OnlyTemps(a, b, m, pid) && OnlyTemps(b, c, m, pid)
    ensures OnlyTemps(a, c, m, pid)
  {
    forall p | !IsTemp(m, pid, p) ensures (p in c <==> p in a) && (p in c ==> c[p] == a[p]) {
      assert p in b <==> p in a;
    }
  }

  /** Staging touches only temporaries, wherever it stops, and completes what it
      reports as done. */
  lemma {:induction false} StageKeeps(files: Files, m: seq<Entry>, pid: string, script: seq<Outcome>, i: nat)
    requires Distinct(m) && i <= |m| && Staged(files, m, pid, i)
    ensures var s := Stage(files, m, pid, script, i);
            && OnlyTemps(files, s.files, m, pid)
            && s.listed <= |m|
            && (s.end == Exit(0) ==> Staged(s.files, m, pid, |m|))
            && (s.end.Exit? ==> s.end.code in {0, 31, 32, 33, 34, 35})
    decreases |m| - i
  {
    if i < |m| {
      if m[i].Verify? {
        StageKeeps(files, m, pid, script, i + 1);
      } else {
        var t := TempOf(m[i].rel, pid);
        var r := StageOne(files, m[i].update, t, script);
        StageOneKeeps(files, m[i].update, t, script);
        StagedOneMore(files, m, pid, script, i);
        if r.end == Exit(0) {
          StageKeeps(r.files, m, pid, r.rest, i + 1);
          OnlyTempsTransitive(files, r.files, Stage(r.files, m, pid, r.rest, i + 1).files, m, pid);
        }
      }
    }
  }

  /** Enough working commands stage everything. */
  lemma {:induction false} StageFinishes(files: Files, m: seq<Entry>, pid: string, script: seq<Outcome>, i: nat)
    requires i <= |m| && AllWork(script) && |script| >= 5 * (|m| - i)
    ensures var s := Stage(files, m, pid, script, i);
            s.end == Exit(0) && AllWork(s.rest) && |s.rest| >= |script| - 5 * (|m| - i)
    decreases |m| - i
  {
    if i < |m| {
      if m[i].Verify? {
        StageFinishes(files, m, pid, script, i + 1);
      } else {
        StageOneKeeps(files, m[i].update, TempOf(m[i].rel, pid), script);
        var r := StageOne(files, m[i].update, TempOf(m[i].rel, pid), script);
        StageFinishes(r.files, m, pid, r.rest, i + 1);
      }
    }
  }

  // ---- committing

  /** `p` is the target of a payload whose new content is `c`. */
  ghost predicate IsUpdate(m: seq<Entry>, p: Path, c: Content) {
    exists j :: 0 <= j < |m| && m[j].Payload? && m[j].rel == p && m[j].update == c
  }

  /** Apart from temporaries, each file is as before or is a payload target with its
      new content. */
  ghost predicate Upgraded(before: Files, after: Files, m: seq<Entry>, pid: string) {
    forall p :: !IsTemp(m, pid, p) ==>
      (p in after <==> p in before) && (p in after ==> after[p] == before[p] || IsUpdate(m, p, after[p]))
  }

  /** The first `n` payloads are in place and the others still staged. */
  ghost predicate Moved(files: Files, m: seq<Entry>, pid: string, n: nat) {
    forall j :: 0 <= j < |m| && m[j].Payload? ==>
      var t := TempOf(m[j].rel, pid);
      if j < n then m[j].rel in files && files[m[j].rel] == m[j].update && t !in files
      else t in files && files[t] == m[j].update
  }

  /** One rename puts one new file in place and disturbs no other. */
  lemma MoveOne(start: Files, files: Files, m: seq<Entry>, pid: string, i: nat)
    requires Distinct(m) && NoClash(m, pid) && i < |m| && m[i].Payload? && m[i].rel in files
    requires Moved(files, m, pid, i) && Upgraded(start, files, m, pid)
    ensures TempOf(m[i].rel, pid) in files && files[TempOf(m[i].rel, pid)] == m[i].update
    ensures var after := MoveInto(files, TempOf(m[i].rel, pid), m[i].rel);
            Moved(after, m, pid, i + 1) && Upgraded(start, after, m, pid)
  {
    var t := TempOf(m[i].rel, pid);
    var after := MoveInto(files, t, m[i].rel);
    assert IsTemp(m, pid, t) && !IsTemp(m, pid, m[i].rel);
    forall j | 0 <= j < |m| && m[j].Payload? && j != i
      ensures TempOf(m[j].rel, pid) != t && m[j].rel != m[i].rel
      ensures TempOf(m[j].rel, pid) != m[i].rel && m[j].rel != t
    {
      assert IsTemp(m, pid, TempOf(m[j].rel, pid)) && !IsTemp(m, pid, m[j].rel);
      TempsDiffer(m, pid, i, j);
    }
    forall p | !IsTemp(m, pid, p)
      ensures (p in after <==> p in start) && (p in after ==> after[p] == start[p] || IsUpdate(m, p, after[p]))
    {
      if p == m[i].rel {
        assert IsUpdate(m, p, after[p]);
      }
    }
  }

  /** Every declared file is there. */
  ghost predicate Present(files: Files, m: seq<Entry>) {
    forall i :: 0 <= i < |m| ==> m[i].rel in files
  }

  lemma UpgradedPresent(start: Files, files: Files, m: seq<Entry>, pid: string)
    requires NoClash(m, pid) && Present(start, m) && Upgraded(start, files, m, pid)
    ensures Present(files, m)
  {
    forall i | 0 <= i < |m| ensures m[i].rel in files {
      assert !IsTemp(m, pid, m[i].rel);
    }
  }

  /** Between two renames: apart from temporaries everything is old or new. */
  ghost predicate Halfway(start: Files, files: Files, m: seq<Entry>, pid: string, n: nat) {
    Moved(files, m, pid, n) && Upgraded(start, files, m, pid)
  }

  lemma HalfwaySkip(start: Files, files: Files, m: seq<Entry>, pid: string, i: nat)
    requires i < |m| && m[i].Verify? && Halfway(start, files, m, pid, i)
    ensures Halfway(start, files, m, pid, i + 1)
  {
  }

  lemma HalfwayMove(start: Files, files: Files, m: seq<Entry>, pid: string, i: nat)
    requires Distinct(m) && NoClash(m, pid) && i < |m| && m[i].Payload? && Present(start, m)
    requires Halfway(start, files, m, pid, i)
    ensures TempOf(m[i].rel, pid) in files && files[TempOf(m[i].rel, pid)] == m[i].update
    ensures Halfway(start, MoveInto(files, TempOf(m[i].rel, pid), m[i].rel), m, pid, i + 1)
  {
    UpgradedPresent(start, files, m, pid);
    MoveOne(start, files, m, pid, i);
  }

  /** How the renames may end. */
  ghost predicate OldOrNew(start: Files, r: Run, m: seq<Entry>, pid: string) {
    && Upgraded(start, r.files, m, pid)
    && (r.end == Exit(0) ==> Moved(r.files, m, pid, |m|))
    && (r.end.Exit? ==> r.end.code in {0, 36})
  }

  /** Wherever the renames stop, every file is as before or a payload target with its
      new content. */
  lemma {:induction false} CommitKeeps(start: Files, files: Files, m: seq<Entry>, pid: string,
                                       script: seq<Outcome>, i: nat)
    requires Distinct(m) && NoClash(m, pid) && i <= |m| && Present(start, m)
    requires Halfway(start, files, m, pid, i)
    ensures OldOrNew(start, Commit(files, m, pid, script, i), m, pid)
    decreases |m| - i
  {
    if i < |m| {
      if m[i].Verify? {
        HalfwaySkip(start, files, m, pid, i);
        CommitKeeps(start, files, m, pid, script, i + 1);
      } else {
        HalfwayMove(start, files, m, pid, i);
        if script != [] && script[0].Works? {
          var after := MoveInto(files, TempOf(m[i].rel, pid), m[i].rel);
          CommitKeeps(start, after, m, pid, script[1..], i + 1);
          assert Commit(files, m, pid, script, i) == Commit(after, m, pid, script[1..], i + 1);
        }
      }
    }
  }

  /** Enough working commands move everything. */
  lemma {:induction false} CommitFinishes(start: Files, files: Files, m: seq<Entry>, pid: string,
                                          script: seq<Outcome>, i: nat)
    requires Distinct(m) && NoClash(m, pid) && i <= |m| && Present(start, m)
    requires Halfway(start, files, m, pid, i) && AllWork(script) && |script| >= |m| - i
    ensures Commit(files, m, pid, script, i).end == Exit(0)
    decreases |m| - i
  {
    if i < |m| {
      if m[i].Verify? {
        HalfwaySkip(start, files, m, pid, i);
        CommitFinishes(start, files, m, pid, script, i + 1);
      } else {
        HalfwayMove(start, files, m, pid, i);
        CommitFinishes(start, MoveInto(files, TempOf(m[i].rel, pid), m[i].rel), m, pid, script[1..], i + 1);
      }
    }
  }

  /** The exit trap removes temporaries only. */
  lemma {:induction false} CleanedKeeps(files: Files, m: seq<Entry>, pid: string, n: nat)
    requires n <= |m|
    ensures OnlyTemps(files, Cleaned(files, m, pid, n), m, pid)
  {
    if n > 0 {
      CleanedKeeps(files, m, pid, n - 1);
      if m[n - 1].Payload? {
        assert IsTemp(m, pid, TempOf(m[n - 1].rel, pid));
      }
    }
  }

  /** ... and all that were listed. */
  lemma {:induction false} CleanedRemoves(files: Files, m: seq<Entry>, pid: string, n: nat, j: nat)
    requires j < n <= |m| && m[j].Payload?
    ensures TempOf(m[j].rel, pid) !in Cleaned(files, m, pid, n)
  {
    if j < n - 1 {
      CleanedRemoves(files, m, pid, n - 1, j);
    }
  }

  // ---- the whole script

  lemma TempsAreUpgrades(a: Files, b: Files, c: Files, m: seq<Entry>, pid: string)
    requires OnlyTemps(a, b, m, pid)
    ensures Upgraded(a, b, m, pid)
    ensures Upgraded(b, c, m, pid) ==> Upgraded(a, c, m, pid)
    ensures Upgraded(c, a, m, pid) ==> Upgraded(c, b, m, pid)
  {
    forall p | !IsTemp(m, pid, p) ensures (p in b <==> p in a) && (p in b ==> b[p] == a[p]) {}
  }

  lemma TempsKeepPresent(a: Files, b: Files, m: seq<Entry>, pid: string)
    requires NoClash(m, pid) && Present(a, m) && OnlyTemps(a, b, m, pid)
    ensures Present(b, m)
  {
    forall i | 0 <= i < |m| ensures m[i].rel in b {
      assert !IsTemp(m, pid, m[i].rel);
    }
  }

  /** Every payload is in place and every verified file as expected. */
  ghost predicate Complete(files: Files, m: seq<Entry>) {
    forall i :: 0 <= i < |m| ==>
      m[i].rel in files && files[m[i].rel] == if m[i].Payload? then m[i].update else m[i].expected
  }

  /** What a partial install validates is what validated before it. */
  lemma UpgradeKeepsValid(before: Files, after: Files, payload: Files, m: seq<Entry>, pid: string)
    requires Validates(before, payload, m) && Distinct(m) && NoClash(m, pid) && Upgraded(before, after, m, pid)
    ensures Validates(after, payload, m)
  {
    forall i | 0 <= i < |m| ensures ValidEntry(after, payload, m[i]) {
      var rel := m[i].rel;
      assert ValidEntry(before, payload, m[i]) && !IsTemp(m, pid, rel);
      if after[rel] != before[rel] {
        assert IsUpdate(m, rel, after[rel]);
        var j :| 0 <= j < |m| && m[j].Payload? && m[j].rel == rel && m[j].update == after[rel];
        assert j == i;
      }
    }
  }

  /** Before the first rename only temporaries differ, with or without a clash of
      names: the exit trap included. */
  lemma ScriptStages(files: Files, m: seq<Entry>, pid: string, writable: bool, script: seq<Outcome>)
    requires Distinct(m)
    ensures var r := Script(files, m, pid, writable, script);
            !r.committing ==> OnlyTemps(files, r.files, m, pid) && r.end != Exit(0)
  {
    StageKeeps(files, m, pid, script, 0);
    var s := Stage(files, m, pid, script, 0);
    CleanedKeeps(s.files, m, pid, s.listed);
    OnlyTempsTransitive(files, s.files, Cleaned(s.files, m, pid, s.listed), m, pid);
  }

  lemma ScriptCommits(files: Files, m: seq<Entry>, pid: string, script: seq<Outcome>)
    requires Distinct(m) && NoClash(m, pid) && Present(files, m)
    requires Stage(files, m, pid, script, 0).end == Exit(0)
    ensures var s := Stage(files, m, pid, script, 0);
            var c := Commit(s.files, m, pid, s.rest, 0);
            && Upgraded(files, c.files, m, pid) && Upgraded(files, Cleaned(c.files, m, pid, |m|), m, pid)
            && (c.end == Exit(0) ==> Moved(c.files, m, pid, |m|))
            && (AllWork(script) && |script| >= 6 * |m| ==> c.end == Exit(0))
  {
    StageKeeps(files, m, pid, script, 0);
    var s := Stage(files, m, pid, script, 0);
    TempsKeepPresent(files, s.files, m, pid);
    CommitKeeps(s.files, s.files, m, pid, s.rest, 0);
    if AllWork(script) && |script| >= 6 * |m| {
      StageFinishes(files, m, pid, script, 0);
      CommitFinishes(s.files, s.files, m, pid, s.rest, 0);
    }
    var c := Commit(s.files, m, pid, s.rest, 0);
    TempsAreUpgrades(files, s.files, c.files, m, pid);
    CleanedKeeps(c.files, m, pid, |m|);
    TempsAreUpgrades(c.files, Cleaned(c.files, m, pid, |m|), files, m, pid);
  }

  /** Wherever the script stops, each file but a temporary is old or new; success means
      that every payload was moved; and enough working commands mean success. */
  lemma ScriptKeeps(files: Files, m: seq<Entry>, pid: string, writable: bool, script: seq<Outcome>)
    requires Distinct(m) && NoClash(m, pid) && Present(files, m)
    ensures var r := Script(files, m, pid, writable, script);
            && Upgraded(files, r.files, m, pid)
            && (r.end == Exit(0) ==> Moved(r.files, m, pid, |m|))
            && (writable && AllWork(script) && |script| >= 6 * |m| ==> r.end == Exit(0))
  {
    ScriptStages(files, m, pid, writable, script);
    var r := Script(files, m, pid, writable, script);
    if r.committing {
      ScriptCommits(files, m, pid, script);
    } else {
      TempsAreUpgrades(files, r.files, files, m, pid);
      if writable && AllWork(script) && |script| >= 6 * |m| {
        StageFinishes(files, m, pid, script, 0);
      }
    }
  }

  lemma MovedIsComplete(before: Files, after: Files, payload: Files, m: seq<Entry>, pid: string)
    requires Validates(before, payload, m) && Distinct(m) && NoClash(m, pid)
    requires Upgraded(before, after, m, pid) && Moved(after, m, pid, |m|)
    ensures Complete(after, m) && forall p :: IsTemp(m, pid, p) ==> p !in after
  {
    UpgradeKeepsValid(before, after, payload, m, pid);
    forall i | 0 <= i < |m|
      ensures m[i].rel in after && after[m[i].rel] == if m[i].Payload? then m[i].update else m[i].expected
    {
      assert ValidEntry(after, payload, m[i]);
    }
  }

  /** Each payload target has its base or its new content, each verified file what was
      expected of it. */
  ghost predicate OldOrNewContent(files: Files, m: seq<Entry>) {
    forall i :: 0 <= i < |m| ==>
      && m[i].rel in files
      && match m[i]
         case Payload(rel, base, update) => files[rel] == base || files[rel] == update
         case Verify(rel, expected) => files[rel] == expected
  }

  lemma ValidContent(files: Files, payload: Files, m: seq<Entry>)
    requires Validates(files, payload, m)
    ensures OldOrNewContent(files, m)
  {
    forall i | 0 <= i < |m| ensures ValidEntry(files, payload, m[i]) {}
  }

  /** One run of the script, from validation to the last rename, cut short or not.  What
      it promises when no declared file is named like a temporary is all that can be
      promised: see `SurvivesIff`. */
  method Install(files: Files, payload: Files, m: seq<Entry>, pid: string, writable: bool, script: seq<Outcome>)
    returns (r: Ran)
    requires Distinct(m)
    ensures !Validates(files, payload, m) ==> r.files == files && r.end.Exit? && r.end.code in {23, 24, 25, 26, 27}
    ensures Validates(files, payload, m) ==> r == Script(files, m, pid, writable, script)
    ensures !r.committing ==> OnlyTemps(files, r.files, m, pid)
    ensures NoClash(m, pid) ==> Upgraded(files, r.files, m, pid)
    ensures NoClash(m, pid) && Validates(files, payload, m) ==> Validates(r.files, payload, m)
    ensures NoClash(m, pid) && Validates(files, payload, m) ==> OldOrNewContent(r.files, m)
    ensures NoClash(m, pid) && r.end == Exit(0) ==>
              Complete(r.files, m) && forall p :: IsTemp(m, pid, p) ==> p !in r.files
    ensures NoClash(m, pid) && Validates(files, payload, m) && writable && AllWork(script) && |script| >= 6 * |m|
            ==> r.end == Exit(0)
  {
    var code := ValidateAll(files, payload, m);
    if code != 0 { return Ran(Exit(code), files, false); }
    if writable {
      var s := StageAll(files, payload, m, pid, script);
      r := Ran(s.end, s.files, s.end == Exit(0));
      if s.end == Exit(0) {
        var c := CommitAll(s.files, m, pid, s.rest);
        r := Ran(c.end, c.files, true);
      }
      if r.end.Exit? && r.end != Exit(0) {
        StageKeeps(files, m, pid, script, 0);
        var after := Cleanup(r.files, m, pid, s.listed);
        r := r.(files := after);
      }
    } else {
      r := Ran(Exit(30), files, false);
    }
    assert Present(files, m);
    ScriptStages(files, m, pid, writable, script);
    if NoClash(m, pid) {
      ScriptKeeps(files, m, pid, writable, script);
      UpgradeKeepsValid(files, r.files, payload, m, pid);
      ValidContent(r.files, payload, m);
      if r.end == Exit(0) {
        MovedIsComplete(files, r.files, payload, m, pid);
      }
    }
  }

  // ---- exactly when an interrupted install can be repeated

  /** Every command works up to the copy of payload `j`, which dies at once. */
  function Until(m: seq<Entry>, i: nat, j: nat): seq<Outcome>
    requires i <= j <= |m|
    decreases j - i
  {
    if i == j then [Dies(0)]
    else if m[i].Verify? then Until(m, i + 1, j)
    else [Works, Works, Works, Works, Works] + Until(m, i + 1, j)
  }

  lemma StageOneWorks(files: Files, source: Content, t: Path, rest: seq<Outcome>)
    ensures StageOne(files, source, t, [Works, Works, Works, Works, Works] + rest)
         == Run(Exit(0), files[t := source], rest)
  {
    var five := [Works, Works, Works, Works, Works];
    var script, copied := five + rest, files[t := source];
    assert script[5..] == rest;
    assert Follow(copied, script, 4) == Run(Exit(0), copied, rest);
    assert Follow(copied, script, 2) == Follow(copied, script, 4);
  }

  lemma {:induction false} StageDies(files: Files, m: seq<Entry>, pid: string, i: nat, j: nat)
    requires i <= j < |m| && m[j].Payload?
    ensures var s := Stage(files, m, pid, Until(m, i, j), i);
            var t := TempOf(m[j].rel, pid);
            s.end == Interrupted && t in s.files && s.files[t] == []
    decreases j - i
  {
    if i < j {
      if m[i].Verify? {
        StageDies(files, m, pid, i + 1, j);
      } else {
        var t := TempOf(m[i].rel, pid);
        StageOneWorks(files, m[i].update, t, Until(m, i + 1, j));
        StageDies(files[t := m[i].update], m, pid, i + 1, j);
      }
    }
  }

  /** A declared file named like a temporary is lost: an interruption while that
      temporary is written leaves the file empty, before any rename. */
  lemma ClashDestroys(files: Files, payload: Files, m: seq<Entry>, pid: string, i: nat, j: nat)
    requires Validates(files, payload, m) && i < |m| && j < |m| && m[j].Payload?
    requires m[i].rel == TempOf(m[j].rel, pid)
    ensures var r := Script(files, m, pid, true, Until(m, 0, j));
            && r.end == Interrupted && !r.committing
            && m[i].rel in r.files && r.files[m[i].rel] == [] != files[m[i].rel]
            && !Validates(r.files, payload, m)
  {
    assert ValidEntry(files, payload, m[i]);
    StageDies(files, m, pid, 0, j);
    var r := Script(files, m, pid, true, Until(m, 0, j));
    assert !ValidEntry(r.files, payload, m[i]);
  }

  /** However a run of the script goes, what is left validates again. */
  ghost predicate Survives(files: Files, payload: Files, m: seq<Entry>, pid: string) {
    forall writable, script :: Validates(Script(files, m, pid, writable, script).files, payload, m)
  }

  /** An install survives every interruption exactly when no declared file is named like
      one of its temporaries. */
  lemma SurvivesIff(files: Files, payload: Files, m: seq<Entry>, pid: string)
    requires Distinct(m) && Validates(files, payload, m)
    ensures Survives(files, payload, m, pid) <==> NoClash(m, pid)
  {
    if NoClash(m, pid) {
      assert Present(files, m);
      forall writable, script ensures Validates(Script(files, m, pid, writable, script).files, payload, m) {
        ScriptKeeps(files, m, pid, writable, script);
        UpgradeKeepsValid(files, Script(files, m, pid, writable, script).files, payload, m, pid);
      }
    } else {
      var i :| 0 <= i < |m| && IsTemp(m, pid, m[i].rel);
      var j :| 0 <= j < |m| && m[j].Payload? && m[i].rel == TempOf(m[j].rel, pid);
      ClashDestroys(files, payload, m, pid, i, j);
    }
  }

  /** ... and every install of the manifest, under any process number, exactly when the
      names in the manifest are apart. */
  lemma SurvivesAlwaysIff(files: Files, payload: Files, m: seq<Entry>)
    requires Distinct(m) && Validates(files, payload, m)
    ensures (forall pid :: Decimal(pid) ==> Survives(files, payload, m, pid)) <==> NamesApart(m)
  {
    forall pid ensures Survives(files, payload, m, pid) <==> NoClash(m, pid) {
      SurvivesIff(files, payload, m, pid);
    }
    NamesApartIff(m);
  }

  datatype Attempt = Attempt(pid: string, writable: bool, script: seq<Outcome>)

  /** Any number of attempts, each cut short anywhere, and then one that is not: when
      the names in the manifest are apart the last one passes validation and leaves
      every payload in place. */
  method Reflash(files: Files, payload: Files, m: seq<Entry>, attempts: seq<Attempt>, last: Attempt)
    returns (end: End, after: Files)
    requires Distinct(m)
    ensures NamesApart(m) && Validates(files, payload, m)
            && Decimal(last.pid) && (forall i :: 0 <= i < |attempts| ==> Decimal(attempts[i].pid))
            && last.writable && AllWork(last.script) && |last.script| >= 6 * |m|
            ==> end == Exit(0) && Complete(after, m)
  {
    NamesApartIff(m);
    after := files;
    for i := 0 to |attempts|
      invariant NamesApart(m) && Validates(files, payload, m)
                && (forall k :: 0 <= k < |attempts| ==> Decimal(attempts[k].pid))
                ==> Validates(after, payload, m)
    {
      var r := Install(after, payload, m, attempts[i].pid, attempts[i].writable, attempts[i].script);
      after := r.files;
    }
    var r := Install(after, payload, m, last.pid, last.writable, last.script);
    end, after := r.end, r.files;
  }

  // ---- a manifest that clashes

  /** A library to replace, and a file to verify that is named like its temporary. */
  function Clashing(rel: Path, pid: string, base: Content, update: Content, expected: Content): seq<Entry> {
    [Payload(rel, base, update), Verify(TempOf(rel, pid), expected)]
  }

  /** Nothing fails, the script reports success, and the file that it only had to verify
      is gone. */
  lemma SuccessDeletesVictim(rel: Path, pid: string, base: Content, update: Content, expected: Content)
    requires base != [] && update != [] && expected != []
    ensures var m := Clashing(rel, pid, base, update, expected);
            var files: Files := map[rel := base, TempOf(rel, pid) := expected];
            var r := Script(files, m, pid, true, [Works, Works, Works, Works, Works] + [Works]);
            && Distinct(m) && Validates(files, map[rel := update], m)
            && r.end == Exit(0) && r.files == map[rel := update]
  {
    var m, t := Clashing(rel, pid, base, update, expected), TempOf(rel, pid);
    assert |t| > |rel|;
    var files: Files := map[rel := base, t := expected];
    var staged := files[t := update];
    var script := [Works, Works, Works, Works, Works] + [Works];
    StageOneWorks(files, update, t, [Works]);
    assert Stage(staged, m, pid, [Works], 1) == Staging(Exit(0), staged, [Works], 2);
    assert Stage(files, m, pid, script, 0) == Staging(Exit(0), staged, [Works], 2);
    var moved := MoveInto(staged, t, rel);
    assert moved == map[rel := update];
    assert Commit(moved, m, pid, [], 1) == Run(Exit(0), moved, []);
    assert [Works][1..] == [];
    assert Commit(staged, m, pid, [Works], 0) == Run(Exit(0), moved, []);
  }

  ghost predicate Plain(s: string) {
    !HasDotDot(s) && '|' !in s && forall i :: 0 <= i < |s| ==> !IsSpace(s[i])
  }

  lemma PlainJoin(a: string, b: string)
    requires Plain(a) && Plain(b) && a != [] && b != [] && (a[|a| - 1] != '.' || b[0] != '.')
    ensures Plain(a + b)
  {
    var c := a + b;
    forall i | 0 <= i < |c| - 1 ensures !(c[i] == '.' && c[i + 1] == '.') {
      if i + 1 < |a| {
        assert c[i] == a[i] && c[i + 1] == a[i + 1];
      } else if i >= |a| {
        assert c[i] == b[i - |a|] && c[i + 1] == b[i - |a| + 1];
      }
    }
  }

  lemma PlainSuffix()
    ensures Plain(SUFFIX) && |SUFFIX| == 24 && SUFFIX[0] == '.' && SUFFIX[23] == '.'
  {
  }

  lemma AllowedTemp(t: Path, pid: string)
    requires AllowedTarget(t) && t != POWER_HAL && t[|t| - 1] != '.' && Decimal(pid)
    ensures AllowedTarget(TempOf(t, pid))
  {
    PlainSuffix();
    PlainJoin(t, SUFFIX);
    PlainJoin(t + SUFFIX, pid);
  }

  lemma ClashingNames(rel: Path, pid: string)
    requires AllowedTarget(SYSTEM + rel) && SYSTEM + rel != POWER_HAL && rel != [] && rel[|rel| - 1] != '.'
    requires Decimal(pid)
    ensures AllowedTarget(SYSTEM + TempOf(rel, pid)) && SYSTEM + rel != SYSTEM + TempOf(rel, pid)
    ensures Relative(SYSTEM + rel) == rel && Relative(SYSTEM + TempOf(rel, pid)) == TempOf(rel, pid)
  {
    assert SYSTEM + TempOf(rel, pid) == TempOf(SYSTEM + rel, pid);
    AllowedTemp(SYSTEM + rel, pid);
    assert |SYSTEM + rel| < |TempOf(SYSTEM + rel, pid)|;
  }

  /** The builder accepts such a manifest, for every library whose name does not end in
      a dot and every process number. */
  lemma BuilderAcceptsClash(rel: Path, pid: string, base: Content, update: Content, expected: Content)
    requires AllowedTarget(SYSTEM + rel) && SYSTEM + rel != POWER_HAL && rel != [] && rel[|rel| - 1] != '.'
    requires Decimal(pid) && update != []
    ensures var payloads := [PayloadSpec(update, SYSTEM + rel, base)];
            var verifies := [VerifySpec(SYSTEM + TempOf(rel, pid), expected)];
            var m := Clashing(rel, pid, base, update, expected);
            && Acceptable(payloads, verifies, 2) && !NoClash(m, pid)
            && EntryOf(payloads, verifies, 0) == m[0] && EntryOf(payloads, verifies, 1) == m[1]
  {
    var payloads := [PayloadSpec(update, SYSTEM + rel, base)];
    var verifies := [VerifySpec(SYSTEM + TempOf(rel, pid), expected)];
    var m := Clashing(rel, pid, base, update, expected);
    ClashingNames(rel, pid);
    assert GoodSpec(payloads, verifies, 0) && GoodSpec(payloads, verifies, 1);
    assert m[0].Payload? && m[1].rel == TempOf(m[0].rel, pid);
    assert IsTemp(m, pid, m[1].rel);
  }

  /** There is such a library. */
  lemma LibraryAllowed()
    ensures AllowedTarget(SYSTEM + "lib/a.so") && SYSTEM + "lib/a.so" != POWER_HAL
  {
    var t := SYSTEM + "lib/a.so";
    assert t == (SYSTEM + "lib/") + "a.so";
    assert |t| != |POWER_HAL|;
  }

  /** A name that goes on after the suffix with something else than a number is no
      temporary of any run, and does no harm. */
  lemma OtherTailsAreSafe(rel: Path, tail: string, base: Content, update: Content, expected: Content, pid: string)
    requires !Decimal(tail) && Decimal(pid)
    ensures NoClash([Payload(rel, base, update), Verify(rel + SUFFIX + tail, expected)], pid)
  {
    var m := [Payload(rel, base, update), Verify(rel + SUFFIX + tail, expected)];
    assert |TempOf(rel, pid)| > |rel|;
    assert (rel + SUFFIX + tail)[|rel + SUFFIX|..] == tail;
    assert TempOf(rel, pid)[|rel + SUFFIX|..] == pid;
  }
}
