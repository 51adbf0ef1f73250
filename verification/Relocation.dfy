/** Rewriting path strings inside a binary without moving anything: each rule
    replaces every occurrence of one byte string by another that is not longer,
    padded with NUL bytes.  What matters is what a C program reads afterwards. */
module Relocation {
  import opened Bytes

  datatype Rule = Rule(before: seq<byte>, after: seq<byte>, count: int)

  datatype Error = Grows | UnexpectedCount | TruncatesSuffix

  datatype Result = Ok(data: seq<byte>) | Err(error: Error)

  /** Where the leftmost non-overlapping occurrences of `p` in `s` start; `s` itself
      starts at `base`. */
  function Matches(s: seq<byte>, p: seq<byte>, base: nat): seq<nat>
    requires p != []
  {
    if |s| < |p| then []
    else if s[..|p|] == p then [base] + Matches(s[|p|..], p, base + |p|)
    else Matches(s[1..], p, base + 1)
  }

  function Replace(s: seq<byte>, p: seq<byte>, r: seq<byte>): seq<byte>
    requires p != []
  {
    if |s| < |p| then s
    else if s[..|p|] == p then r + Replace(s[|p|..], p, r)
    else [s[0]] + Replace(s[1..], p, r)
  }

  /** An empty pattern occurs around every byte. */
  function Count(s: seq<byte>, p: seq<byte>): nat {
    if p == [] then |s| + 1 else |Matches(s, p, 0)|
  }

  /** Replacing the empty string by the empty string is the only use of an empty pattern. */
  function ReplaceAll(s: seq<byte>, p: seq<byte>, r: seq<byte>): seq<byte> {
    if p == [] then s else Replace(s, p, r)
  }

  function Zeros(n: nat): (r: seq<byte>)
    ensures |r| == n
  {
    seq(n, _ => 0)
  }

  function Padded(rule: Rule): (r: seq<byte>)
    requires |rule.after| <= |rule.before|
    ensures |r| == |rule.before|
  {
    rule.after + Zeros(|rule.before| - |rule.after|)
  }

  /** The byte at `at`, or the end of the data, ends a C string. */
  predicate Ends(s: seq<byte>, at: nat) {
    at >= |s| || s[at] == 0
  }

  /** No occurrence is followed by more of the same string. */
  predicate EndsStrings(s: seq<byte>, p: seq<byte>)
    requires p != []
  {
    var ms := Matches(s, p, 0);
    forall i :: 0 <= i < |ms| ==> Ends(s, ms[i] + |p|)
  }

  function ApplyRule(s: seq<byte>, rule: Rule): Result {
    if |rule.after| > |rule.before| then Err(Grows)
    else if Count(s, rule.before) != rule.count then Err(UnexpectedCount)
    else if |rule.after| < |rule.before| && !EndsStrings(s, rule.before) then Err(TruncatesSuffix)
    else Ok(ReplaceAll(s, rule.before, Padded(rule)))
  }

  function ApplyRules(s: seq<byte>, rules: seq<Rule>): Result
    decreases rules
  {
    if rules == [] then Ok(s)
    else
      var first := ApplyRule(s, rules[0]);
      if first.Err? then first else ApplyRules(first.data, rules[1..])
  }

  /** The loops of the tool. */
  method Relocate(original: seq<byte>, rules: seq<Rule>) returns (r: Result)
    ensures r == ApplyRules(original, rules)
  {
    var data := original;
    for i := 0 to |rules|
      invariant ApplyRules(original, rules) == ApplyRules(data, rules[i..])
    {
      var rule := rules[i];
      assert rules[i..][0] == rule && rules[i..][1..] == rules[i + 1..];
      if |rule.after| > |rule.before| { return Err(Grows); }
      if Count(data, rule.before) != rule.count { return Err(UnexpectedCount); }
      if |rule.after| < |rule.before| {
        var found := Matches(data, rule.before, 0);
        for j := 0 to |found|
          invariant forall i :: 0 <= i < j ==> Ends(data, found[i] + |rule.before|)
        {
          var end := found[j] + |rule.before|;
          if end < |data| && data[end] != 0 {
            assert !Ends(data, found[j] + |rule.before|);
            return Err(TruncatesSuffix);
          }
        }
      }
      data := ReplaceAll(data, rule.before, Padded(rule));
    }
    r := Ok(data);
  }

  /** Exactly which rules are accepted, and why one is not. */
  lemma RuleExact(s: seq<byte>, rule: Rule)
    ensures ApplyRule(s, rule).Ok? <==>
              && |rule.after| <= |rule.before|
              && (if rule.before == [] then rule.count == |s| + 1 else rule.count == |Matches(s, rule.before, 0)|)
              && (|rule.after| < |rule.before| ==>
                    forall m :: m in Matches(s, rule.before, 0) ==>
                      m + |rule.before| >= |s| || s[m + |rule.before|] == 0)
    ensures ApplyRule(s, rule) == Err(Grows) <==> |rule.after| > |rule.before|
    ensures |rule.after| <= |rule.before| && Count(s, rule.before) != rule.count <==>
              ApplyRule(s, rule) == Err(UnexpectedCount)
  {
    if 0 < |rule.before| {
      var ms := Matches(s, rule.before, 0);
      assert forall i :: 0 <= i < |ms| ==> ms[i] in ms;
    }
  }

  // ---- what a C program reads

  function CString(s: seq<byte>): seq<byte> {
    if s == [] || s[0] == 0 then [] else [s[0]] + CString(s[1..])
  }

  predicate NulFree(s: seq<byte>) {
    0 !in s
  }

  ghost predicate NulFreeRule(rule: Rule) {
    NulFree(rule.before) && NulFree(rule.after)
  }

  /** `k` is not strictly inside an occurrence of `p`. */
  ghost predicate Clear(s: seq<byte>, p: seq<byte>, k: nat) {
    p == [] || Avoids(Matches(s, p, 0), |p|, k)
  }

  ghost predicate Avoids(ms: seq<nat>, width: nat, k: int) {
    forall i :: 0 <= i < |ms| ==> !(ms[i] < k < ms[i] + width)
  }

  lemma AvoidsTail(m: nat, ms: seq<nat>, width: nat, k: int)
    requires Avoids([m] + ms, width, k)
    ensures !(m < k < m + width) && Avoids(ms, width, k)
  {
    assert ([m] + ms)[0] == m && forall i :: 0 <= i < |ms| ==> ([m] + ms)[i + 1] == ms[i];
  }

  /** `k` stays clear of every rule, each on the data it is applied to. */
  ghost predicate ClearOfAll(s: seq<byte>, rules: seq<Rule>, k: nat)
    requires ApplyRules(s, rules).Ok?
    decreases rules
  {
    rules == [] || (Clear(s, rules[0].before, k) && ClearOfAll(ApplyRule(s, rules[0]).data, rules[1..], k))
  }

  /** The rules as plain text replacements. */
  function Rewrite(text: seq<byte>, rules: seq<Rule>): seq<byte>
    decreases rules
  {
    if rules == [] then text else Rewrite(ReplaceAll(text, rules[0].before, rules[0].after), rules[1..])
  }

  lemma {:induction false} ReplaceLength(s: seq<byte>, p: seq<byte>, r: seq<byte>)
    requires p != [] && |r| == |p|
    ensures |Replace(s, p, r)| == |s|
  {
    if |s| >= |p| {
      if s[..|p|] == p {
        ReplaceLength(s[|p|..], p, r);
      } else {
        ReplaceLength(s[1..], p, r);
      }
    }
  }

  lemma {:induction false} CStringOfNulFree(a: seq<byte>, b: seq<byte>)
    requires NulFree(a)
    ensures CString(a + b) == a + CString(b)
  {
    if a == [] {
      assert a + b == b;
    } else {
      assert (a + b)[1..] == a[1..] + b;
      CStringOfNulFree(a[1..], b);
    }
  }

  lemma CStringPadded(a: seq<byte>, n: nat, b: seq<byte>)
    requires NulFree(a) && (n > 0 || b == [] || b[0] == 0)
    ensures CString(a + Zeros(n) + b) == a
  {
    assert a + Zeros(n) + b == a + (Zeros(n) + b);
    CStringOfNulFree(a, Zeros(n) + b);
    assert CString(Zeros(n) + b) == [];
  }

  lemma {:induction false} CStringPrefix(s: seq<byte>)
    ensures CString(s) <= s
    ensures |CString(s)| < |s| ==> s[|CString(s)|] == 0
  {
    if s != [] && s[0] != 0 {
      CStringPrefix(s[1..]);
    }
  }

  // ---- the occurrences, and what lies outside them

  ghost predicate OccursAt(s: seq<byte>, p: seq<byte>, k: int) {
    0 <= k && k + |p| <= |s| && s[k..k + |p|] == p
  }

  /** `i`, counted from `base`, lies in an occurrence that was found. */
  ghost predicate InMatch(ms: seq<nat>, width: nat, i: int) {
    exists j :: 0 <= j < |ms| && ms[j] <= i < ms[j] + width
  }

  lemma InMatchTail(m: nat, ms: seq<nat>, width: nat, i: int)
    ensures InMatch([m] + ms, width, i) <==> m <= i < m + width || InMatch(ms, width, i)
  {
    var all := [m] + ms;
    assert all[0] == m && forall j :: 0 <= j < |ms| ==> all[j + 1] == ms[j];
    if InMatch(ms, width, i) {
      var j :| 0 <= j < |ms| && ms[j] <= i < ms[j] + width;
      assert all[j + 1] <= i < all[j + 1] + width;
    }
  }

  lemma OccursLater(s: seq<byte>, p: seq<byte>, k: nat, skip: nat)
    requires OccursAt(s, p, k) && skip <= k
    ensures OccursAt(s[skip..], p, k - skip)
  {
    assert s[skip..][k - skip..k - skip + |p|] == s[k..k + |p|];
  }

  /** No occurrence is missed: each one starts inside an occurrence that was found. */
  lemma {:induction false} MatchesComplete(s: seq<byte>, p: seq<byte>, base: nat, k: nat)
    requires p != [] && OccursAt(s, p, k)
    ensures InMatch(Matches(s, p, base), |p|, base + k)
    decreases |s|
  {
    if s[..|p|] == p {
      InMatchTail(base, Matches(s[|p|..], p, base + |p|), |p|, base + k);
      if k >= |p| {
        OccursLater(s, p, k, |p|);
        MatchesComplete(s[|p|..], p, base + |p|, k - |p|);
      }
    } else {
      OccursLater(s, p, k, 1);
      MatchesComplete(s[1..], p, base + 1, k - 1);
    }
  }

  lemma SameTail(s: seq<byte>, skip: nat, head: seq<byte>, rest: seq<byte>, i: nat)
    requires skip == |head| <= i < |s| && |rest| == |s| - skip && rest[i - skip] == s[skip..][i - skip]
    ensures (head + rest)[i] == s[i]
  {
  }

  /** Outside the occurrences that were found, replacing changes no byte. */
  lemma {:induction false} ReplaceFootprint(s: seq<byte>, p: seq<byte>, r: seq<byte>, base: nat, i: nat)
    requires p != [] && |r| == |p| && i < |s|
    requires !InMatch(Matches(s, p, base), |p|, base + i)
    ensures |Replace(s, p, r)| == |s|
    ensures Replace(s, p, r)[i] == s[i]
    decreases |s|
  {
    ReplaceLength(s, p, r);
    if |s| >= |p| {
      if s[..|p|] == p {
        InMatchTail(base, Matches(s[|p|..], p, base + |p|), |p|, base + i);
        ReplaceFootprint(s[|p|..], p, r, base + |p|, i - |p|);
        SameTail(s, |p|, r, Replace(s[|p|..], p, r), i);
      } else if i >= 1 {
        ReplaceFootprint(s[1..], p, r, base + 1, i - 1);
        SameTail(s, 1, [s[0]], Replace(s[1..], p, r), i);
      }
    }
  }

  /** An accepted rule changes bytes only where its string stood: a byte that no
      occurrence covers is the same before and after. */
  lemma RuleFootprint(s: seq<byte>, rule: Rule, i: nat)
    requires ApplyRule(s, rule).Ok? && i < |s|
    requires forall k :: OccursAt(s, rule.before, k) ==> !(k <= i < k + |rule.before|)
    ensures |ApplyRule(s, rule).data| == |s|
    ensures ApplyRule(s, rule).data[i] == s[i]
  {
    var p := rule.before;
    if p != [] {
      if InMatch(Matches(s, p, 0), |p|, i) {
        var ms := Matches(s, p, 0);
        var j :| 0 <= j < |ms| && ms[j] <= i < ms[j] + |p|;
        MatchesSound(s, p, 0, ms[j]);
        assert false;
      }
      ReplaceFootprint(s, p, Padded(rule), 0, i);
    }
  }

  /** What is found are occurrences. */
  lemma {:induction false} MatchesSound(s: seq<byte>, p: seq<byte>, base: nat, m: nat)
    requires p != [] && m in Matches(s, p, base)
    ensures OccursAt(s, p, m - base)
    decreases |s|
  {
    if s[..|p|] == p {
      var rest := Matches(s[|p|..], p, base + |p|);
      assert Matches(s, p, base) == [base] + rest;
      if m in rest {
        MatchesSound(s[|p|..], p, base + |p|, m);
        OccursEarlier(s, p, m - base - |p|, |p|);
      } else {
        assert m == base && s[0..0 + |p|] == p;
      }
    } else {
      MatchesSound(s[1..], p, base + 1, m);
      OccursEarlier(s, p, m - base - 1, 1);
    }
  }

  lemma OccursEarlier(s: seq<byte>, p: seq<byte>, k: int, skip: nat)
    requires skip <= |s| && OccursAt(s[skip..], p, k)
    ensures OccursAt(s, p, k + skip)
  {
    assert s[skip..][k..k + |p|] == s[k + skip..k + skip + |p|];
  }

  // The two conditions on occurrences, told along the scan that finds them.

  ghost predicate ClearAhead(s: seq<byte>, p: seq<byte>, k: nat)
    requires p != []
  {
    k == 0 || |s| < |p|
    || (if s[..|p|] == p then k >= |p| && ClearAhead(s[|p|..], p, k - |p|) else ClearAhead(s[1..], p, k - 1))
  }

  ghost predicate EndsAhead(s: seq<byte>, p: seq<byte>)
    requires p != []
  {
    |s| < |p| || (if s[..|p|] == p then Ends(s, |p|) && EndsAhead(s[|p|..], p) else EndsAhead(s[1..], p))
  }

  lemma {:induction false} ClearByScan(s: seq<byte>, p: seq<byte>, base: nat, k: nat)
    requires p != [] && Avoids(Matches(s, p, base), |p|, base + k)
    ensures ClearAhead(s, p, k)
    decreases |s|
  {
    if k > 0 && |s| >= |p| {
      if s[..|p|] == p {
        AvoidsTail(base, Matches(s[|p|..], p, base + |p|), |p|, base + k);
        ClearByScan(s[|p|..], p, base + |p|, k - |p|);
      } else {
        ClearByScan(s[1..], p, base + 1, k - 1);
      }
    }
  }

  /** Each occurrence at `ms`, counted from `base`, ends a C string of `s`. */
  ghost predicate AllEnd(s: seq<byte>, ms: seq<nat>, width: nat, base: nat) {
    forall i :: 0 <= i < |ms| ==> ms[i] >= base ==> Ends(s, ms[i] - base + width)
  }

  lemma AllEndTail(s: seq<byte>, ms: seq<nat>, width: nat, base: nat, skip: nat)
    requires skip <= |s| && AllEnd(s, ms, width, base)
    ensures AllEnd(s[skip..], ms, width, base + skip)
  {
    forall i | 0 <= i < |ms| && ms[i] >= base + skip ensures Ends(s[skip..], ms[i] - (base + skip) + width) {
      assert Ends(s, ms[i] - base + width);
    }
  }

  lemma AllEndSplit(s: seq<byte>, m: nat, ms: seq<nat>, width: nat, base: nat)
    requires AllEnd(s, [m] + ms, width, base)
    ensures m >= base ==> Ends(s, m - base + width)
    ensures AllEnd(s, ms, width, base)
  {
    assert ([m] + ms)[0] == m && forall i :: 0 <= i < |ms| ==> ([m] + ms)[i + 1] == ms[i];
  }

  lemma {:induction false} EndsByScan(s: seq<byte>, p: seq<byte>, base: nat)
    requires p != [] && AllEnd(s, Matches(s, p, base), |p|, base)
    ensures EndsAhead(s, p)
    decreases |s|
  {
    if |s| >= |p| {
      if s[..|p|] == p {
        var ms := Matches(s[|p|..], p, base + |p|);
        AllEndSplit(s, base, ms, |p|, base);
        AllEndTail(s, ms, |p|, base, |p|);
        EndsByScan(s[|p|..], p, base + |p|);
      } else {
        AllEndTail(s, Matches(s[1..], p, base + 1), |p|, base, 1);
        EndsByScan(s[1..], p, base + 1);
      }
    }
  }

  lemma {:induction false} EndsAheadSkip(s: seq<byte>, p: seq<byte>, k: nat)
    requires p != [] && k <= |s| && ClearAhead(s, p, k) && EndsAhead(s, p)
    ensures EndsAhead(s[k..], p)
    decreases |s|
  {
    if k == 0 {
      assert s[0..] == s;
    } else if |s| >= |p| {
      var step := if s[..|p|] == p then |p| else 1;
      EndsAheadSkip(s[step..], p, k - step);
      assert s[step..][k - step..] == s[k..];
    }
  }

  /** Replacing and then skipping to a clear position is skipping first. */
  lemma {:induction false} ReplaceSkip(s: seq<byte>, p: seq<byte>, r: seq<byte>, k: nat)
    requires p != [] && |r| == |p| && k <= |s| && ClearAhead(s, p, k)
    ensures |Replace(s, p, r)| == |s|
    ensures Replace(s, p, r)[k..] == Replace(s[k..], p, r)
    decreases |s|
  {
    ReplaceLength(s, p, r);
    if k == 0 {
      assert s[0..] == s;
    } else if |s| >= |p| {
      var step := if s[..|p|] == p then |p| else 1;
      var head := if s[..|p|] == p then r else [s[0]];
      ReplaceSkip(s[step..], p, r, k - step);
      assert Replace(s, p, r) == head + Replace(s[step..], p, r);
      DropPast(head, Replace(s[step..], p, r), k);
      assert s[step..][k - step..] == s[k..];
    }
  }

  lemma DropPast(a: seq<byte>, b: seq<byte>, k: nat)
    requires |a| <= k <= |a| + |b|
    ensures (a + b)[k..] == b[k - |a|..]
  {
  }

  // The C string of the replaced data, and the replaced C string.

  lemma ReplaceFront(p: seq<byte>, x: seq<byte>, r: seq<byte>)
    requires p != []
    ensures Replace(p + x, p, r) == r + Replace(x, p, r)
  {
    assert (p + x)[..|p|] == p && (p + x)[|p|..] == x;
  }

  lemma CStringAt(s: seq<byte>, p: seq<byte>)
    requires p != [] && NulFree(p) && |s| >= |p| && s[..|p|] == p
    ensures CString(s) == p + CString(s[|p|..])
  {
    assert s == p + s[|p|..];
    CStringOfNulFree(p, s[|p|..]);
  }

  lemma MatchSameLength(s: seq<byte>, p: seq<byte>, a: seq<byte>, rest: seq<byte>)
    requires p != [] && NulFree(p) && NulFree(a) && |s| >= |p| && s[..|p|] == p
    requires CString(rest) == Replace(CString(s[|p|..]), p, a)
    ensures CString(a + rest) == Replace(CString(s), p, a)
  {
    CStringAt(s, p);
    ReplaceFront(p, CString(s[|p|..]), a);
    CStringOfNulFree(a, rest);
  }

  lemma MatchShorter(s: seq<byte>, p: seq<byte>, a: seq<byte>, rest: seq<byte>)
    requires p != [] && NulFree(p) && NulFree(a) && |a| < |p| <= |s| && s[..|p|] == p && Ends(s, |p|)
    ensures CString(a + Zeros(|p| - |a|) + rest) == Replace(CString(s), p, a)
  {
    CStringAt(s, p);
    ReplaceFront(p, CString(s[|p|..]), a);
    assert CString(s[|p|..]) == [];
    assert a + [] == a;
    CStringPadded(a, |p| - |a|, rest);
  }

  lemma MatchStep(s: seq<byte>, rule: Rule, rest: seq<byte>)
    requires rule.before != [] && NulFreeRule(rule) && |rule.after| <= |rule.before| <= |s|
    requires s[..|rule.before|] == rule.before
    requires |rule.after| < |rule.before| ==> Ends(s, |rule.before|)
    requires CString(rest) == Replace(CString(s[|rule.before|..]), rule.before, rule.after)
    ensures CString(Padded(rule) + rest) == Replace(CString(s), rule.before, rule.after)
  {
    if |rule.after| == |rule.before| {
      assert Padded(rule) == rule.after;
      MatchSameLength(s, rule.before, rule.after, rest);
    } else {
      MatchShorter(s, rule.before, rule.after, rest);
    }
  }

  lemma NoMatchStep(s: seq<byte>, rule: Rule, rest: seq<byte>)
    requires rule.before != [] && |rule.before| <= |s|
    requires s[..|rule.before|] != rule.before
    requires CString(rest) == Replace(CString(s[1..]), rule.before, rule.after)
    ensures CString([s[0]] + rest) == Replace(CString(s), rule.before, rule.after)
  {
    var p := rule.before;
    assert ([s[0]] + rest)[1..] == rest;
    if s[0] != 0 {
      var text := CString(s);
      CStringPrefix(s);
      assert text[1..] == CString(s[1..]);
      if |text| >= |p| {
        assert text[..|p|] == s[..|p|];
      }
    }
  }

  /** Padding and replacing inside the data is replacing in the C string. */
  lemma {:induction false} CStringReplaced(s: seq<byte>, rule: Rule)
    requires rule.before != [] && NulFreeRule(rule) && |rule.after| <= |rule.before|
    requires |rule.after| < |rule.before| ==> EndsAhead(s, rule.before)
    ensures CString(Replace(s, rule.before, Padded(rule))) == Replace(CString(s), rule.before, rule.after)
    decreases |s|
  {
    var p := rule.before;
    if |s| < |p| {
      CStringPrefix(s);
    } else if s[..|p|] == p {
      CStringReplaced(s[|p|..], rule);
      MatchStep(s, rule, Replace(s[|p|..], p, Padded(rule)));
    } else {
      CStringReplaced(s[1..], rule);
      NoMatchStep(s, rule, Replace(s[1..], p, Padded(rule)));
    }
  }

  /** One accepted rule: nothing moves, and at every offset that is not strictly
      inside an occurrence a C program reads the old string with every occurrence
      replaced. */
  lemma RulePreservesStrings(s: seq<byte>, rule: Rule, k: nat)
    requires NulFreeRule(rule) && ApplyRule(s, rule).Ok?
    requires k <= |s| && Clear(s, rule.before, k)
    ensures var out := ApplyRule(s, rule).data;
            && |out| == |s|
            && CString(out[k..]) == ReplaceAll(CString(s[k..]), rule.before, rule.after)
  {
    var p := rule.before;
    if p != [] {
      ClearByScan(s, p, 0, k);
      ReplaceSkip(s, p, Padded(rule), k);
      if |rule.after| < |p| {
        EndsByScan(s, p, 0);
        EndsAheadSkip(s, p, k);
      }
      CStringReplaced(s[k..], rule);
    }
  }

  /** Every accepted sequence of rules, applied one after the other. */
  lemma {:induction false} RelocationPreservesStrings(s: seq<byte>, rules: seq<Rule>, k: nat)
    requires forall i :: 0 <= i < |rules| ==> NulFreeRule(rules[i])
    requires ApplyRules(s, rules).Ok? && k <= |s| && ClearOfAll(s, rules, k)
    ensures |ApplyRules(s, rules).data| == |s|
    ensures CString(ApplyRules(s, rules).data[k..]) == Rewrite(CString(s[k..]), rules)
    decreases rules
  {
    if rules != [] {
      RulePreservesStrings(s, rules[0], k);
      RelocationPreservesStrings(ApplyRule(s, rules[0]).data, rules[1..], k);
    }
  }
}
