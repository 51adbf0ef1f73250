/** The radio service's preferred-network bitmap over a legacy modem that only
    knows numbered MODES: a mask is widened group by group and looked up. */
module Radio {
  type Mask = bv32

  // RadioAccessFamily: one bit for each radio technology.
  const GPRS: Mask := 1 << 1
  const EDGE: Mask := 1 << 2
  const UMTS: Mask := 1 << 3
  const IS95A: Mask := 1 << 4
  const IS95B: Mask := 1 << 5
  const ONE_X_RTT: Mask := 1 << 6
  const EVDO_0: Mask := 1 << 7
  const EVDO_A: Mask := 1 << 8
  const HSDPA: Mask := 1 << 9
  const HSUPA: Mask := 1 << 10
  const HSPA: Mask := 1 << 11
  const EVDO_B: Mask := 1 << 12
  const EHRPD: Mask := 1 << 13
  const LTE: Mask := 1 << 14
  const HSPAP: Mask := 1 << 15
  const GSM: Mask := 1 << 16
  const TD_SCDMA: Mask := 1 << 17
  const LTE_CA: Mask := 1 << 19

  const GSM_GROUP: Mask := GSM | GPRS | EDGE
  const WCDMA_GROUP: Mask := UMTS | HSDPA | HSUPA | HSPA | HSPAP
  const CDMA_GROUP: Mask := IS95A | IS95B | ONE_X_RTT
  const EVDO_GROUP: Mask := EVDO_0 | EVDO_A | EVDO_B | EHRPD
  const LTE_GROUP: Mask := LTE | LTE_CA
  const TD_GROUP: Mask := TD_SCDMA

  const GROUPS: seq<Mask> := [GSM_GROUP, WCDMA_GROUP, CDMA_GROUP, EVDO_GROUP, LTE_GROUP]

  const MODES: seq<Mask> := [
    GSM_GROUP | WCDMA_GROUP,
    GSM_GROUP,
    WCDMA_GROUP,
    GSM_GROUP | WCDMA_GROUP,
    CDMA_GROUP | EVDO_GROUP,
    CDMA_GROUP,
    EVDO_GROUP,
    GSM_GROUP | WCDMA_GROUP | CDMA_GROUP | EVDO_GROUP,
    LTE_GROUP | CDMA_GROUP | EVDO_GROUP,
    LTE_GROUP | GSM_GROUP | WCDMA_GROUP,
    LTE_GROUP | GSM_GROUP | WCDMA_GROUP | CDMA_GROUP | EVDO_GROUP,
    LTE_GROUP,
    LTE_GROUP | WCDMA_GROUP,
    TD_GROUP,
    TD_GROUP | WCDMA_GROUP,
    LTE_GROUP | TD_GROUP,
    TD_GROUP | GSM_GROUP,
    LTE_GROUP | TD_GROUP | GSM_GROUP,
    TD_GROUP | GSM_GROUP | WCDMA_GROUP,
    LTE_GROUP | TD_GROUP | WCDMA_GROUP,
    LTE_GROUP | TD_GROUP | GSM_GROUP | WCDMA_GROUP,
    TD_GROUP | CDMA_GROUP | EVDO_GROUP | GSM_GROUP | WCDMA_GROUP,
    LTE_GROUP | TD_GROUP | CDMA_GROUP | EVDO_GROUP | GSM_GROUP | WCDMA_GROUP
  ]

  // ---- The reference: closed masks ----

  predicate Subset(a: Mask, b: Mask) { a & b == a }

  predicate Misses(m: Mask, group: Mask) { m & group == 0 }

  predicate Covers(m: Mask, group: Mask) { m & group == group }

  /** The two masks have the same bits of h. */
  predicate SameOn(a: Mask, b: Mask, h: Mask) { a & h == b & h }

  /** All of the group or none of it. */
  predicate WholeGroup(m: Mask, group: Mask) { Misses(m, group) || Covers(m, group) }

  ghost predicate Closed(m: Mask) {
    forall g :: g in GROUPS ==> WholeGroup(m, g)
  }

  /** c is the least closed mask that contains m. */
  ghost predicate IsClosure(m: Mask, c: Mask) {
    Subset(m, c) && Closed(c) && forall d :: Closed(d) && Subset(m, d) ==> Subset(c, d)
  }

  lemma ClosureUnique(m: Mask, c: Mask, d: Mask)
    requires IsClosure(m, c) && IsClosure(m, d)
    ensures c == d
  {
    assert Subset(c, d) && Subset(d, c);
  }

  lemma ClosedIsOwnClosure(m: Mask)
    ensures Closed(m) <==> IsClosure(m, m)
  {
  }

  // ---- Widening group by group ----

  function Widen(m: Mask, group: Mask): Mask {
    if Misses(m, group) then m else m | group
  }

  function WidenAll(m: Mask, gs: seq<Mask>): Mask {
    if gs == [] then m else Widen(WidenAll(m, gs[..|gs| - 1]), gs[|gs| - 1])
  }

  lemma WidenAsIs(m: Mask, g: Mask)
    requires Misses(m, g)
    ensures Widen(m, g) == m && WholeGroup(m, g) && Subset(m, m)
  {
  }

  lemma WidenFills(m: Mask, g: Mask)
    requires !Misses(m, g)
    ensures Subset(m, Widen(m, g)) && WholeGroup(Widen(m, g), g)
  {
  }

  lemma WidenGrows(m: Mask, g: Mask)
    ensures Subset(m, Widen(m, g)) && WholeGroup(Widen(m, g), g)
  {
    if Misses(m, g) {
      WidenAsIs(m, g);
    } else {
      WidenFills(m, g);
    }
  }

  lemma WidenApart(m: Mask, g: Mask, h: Mask)
    requires Misses(h, g)
    ensures SameOn(Widen(m, g), m, h)
    ensures WholeGroup(m, h) ==> WholeGroup(Widen(m, g), h)
  {
  }

  lemma Join(m: Mask, g: Mask, d: Mask)
    requires m & d == m && d & g == g
    ensures (m | g) & d == m | g
  {
  }

  lemma Meet(m: Mask, g: Mask, d: Mask)
    requires m & d == m && d & g == 0
    ensures m & g == 0
  {
  }

  lemma WidenLeast(m: Mask, g: Mask, d: Mask)
    requires Subset(m, d) && WholeGroup(d, g)
    ensures Subset(Widen(m, g), d)
  {
    if Misses(d, g) {
      Meet(m, g, d);
    } else {
      Join(m, g, d);
    }
  }

  lemma SubsetTrans(a: Mask, b: Mask, c: Mask)
    requires Subset(a, b) && Subset(b, c)
    ensures Subset(a, c)
  {
  }

  ghost predicate Apart(gs: seq<Mask>) {
    forall i, j :: 0 <= i < j < |gs| ==> Misses(gs[i], gs[j])
  }

  lemma {:induction false} WidenAllGrows(m: Mask, gs: seq<Mask>)
    ensures Subset(m, WidenAll(m, gs))
  {
    if gs == [] {
      WidenAsIs(m, 0);
    } else {
      var front := gs[..|gs| - 1];
      WidenAllGrows(m, front);
      WidenGrows(WidenAll(m, front), gs[|gs| - 1]);
      SubsetTrans(m, WidenAll(m, front), WidenAll(m, gs));
    }
  }

  lemma {:induction false} WidenAllBelow(m: Mask, gs: seq<Mask>, d: Mask)
    requires Subset(m, d) && forall g :: g in gs ==> WholeGroup(d, g)
    ensures Subset(WidenAll(m, gs), d)
  {
    if gs != [] {
      WidenAllBelow(m, gs[..|gs| - 1], d);
      WidenLeast(WidenAll(m, gs[..|gs| - 1]), gs[|gs| - 1], d);
    }
  }

  /** With disjoint GROUPS, widening by each once is enough. */
  lemma {:induction false} WidenAllWhole(m: Mask, gs: seq<Mask>, k: nat)
    requires Apart(gs) && k < |gs|
    ensures WholeGroup(WidenAll(m, gs), gs[k])
  {
    var front, last := gs[..|gs| - 1], gs[|gs| - 1];
    if k < |gs| - 1 {
      WidenAllWhole(m, front, k);
      WidenApart(WidenAll(m, front), last, gs[k]);
    } else {
      WidenGrows(WidenAll(m, front), last);
    }
  }

  lemma SameTrans(a: Mask, b: Mask, c: Mask, h: Mask)
    requires SameOn(a, b, h) && SameOn(b, c, h)
    ensures SameOn(a, c, h)
  {
  }

  /** What lies outside the groups stays. */
  lemma {:induction false} WidenAllOutside(m: Mask, gs: seq<Mask>, h: Mask)
    requires forall i :: 0 <= i < |gs| ==> Misses(h, gs[i])
    ensures SameOn(WidenAll(m, gs), m, h)
  {
    if gs != [] {
      var w := WidenAll(m, gs[..|gs| - 1]);
      WidenAllOutside(m, gs[..|gs| - 1], h);
      WidenApart(w, gs[|gs| - 1], h);
      SameTrans(Widen(w, gs[|gs| - 1]), w, m, h);
    }
  }

  lemma MissesBoth(a: Mask, b: Mask)
    requires Misses(a, b)
    ensures Misses(b, a)
  {
  }

  lemma MissesSame(a: Mask, b: Mask, h: Mask)
    requires SameOn(a, b, h) && Misses(b, h)
    ensures Misses(a, h)
  {
  }

  /** A group the mask does not touch stays untouched. */
  lemma {:induction false} WidenAllUntouched(m: Mask, gs: seq<Mask>, k: nat)
    requires Apart(gs) && k < |gs| && Misses(m, gs[k])
    ensures Misses(WidenAll(m, gs), gs[k])
  {
    var front, last := gs[..|gs| - 1], gs[|gs| - 1];
    var w := WidenAll(m, front);
    if k < |gs| - 1 {
      WidenAllUntouched(m, front, k);
      WidenApart(w, last, gs[k]);
      MissesSame(Widen(w, last), w, gs[k]);
    } else {
      forall i | 0 <= i < |front| ensures Misses(last, front[i]) {
        MissesBoth(gs[i], last);
      }
      WidenAllOutside(m, front, last);
      MissesSame(w, m, last);
      WidenAsIs(w, last);
    }
  }

  lemma Touched(m: Mask, c: Mask, g: Mask)
    requires Subset(m, c) && WholeGroup(c, g) && !Misses(m, g)
    ensures Covers(c, g)
  {
  }

  lemma WidenAllTouched(m: Mask, gs: seq<Mask>, k: nat)
    requires Apart(gs) && k < |gs| && !Misses(m, gs[k])
    ensures Covers(WidenAll(m, gs), gs[k])
  {
    WidenAllGrows(m, gs);
    WidenAllWhole(m, gs, k);
    Touched(m, WidenAll(m, gs), gs[k]);
  }

  lemma GroupsApart()
    ensures Apart(GROUPS)
  {
  }

  function Closure(m: Mask): Mask {
    WidenAll(m, GROUPS)
  }

  lemma ClosureIsLeast(m: Mask)
    ensures IsClosure(m, Closure(m))
  {
    GroupsApart();
    WidenAllGrows(m, GROUPS);
    forall g | g in GROUPS ensures WholeGroup(Closure(m), g) {
      var k :| 0 <= k < |GROUPS| && GROUPS[k] == g;
      WidenAllWhole(m, GROUPS, k);
    }
    forall d | Closed(d) && Subset(m, d) ensures Subset(Closure(m), d) {
      WidenAllBelow(m, GROUPS, d);
    }
  }

  /** Group by group: all of a group the mask touches, nothing of one it does not. */
  lemma ClosureOfGroup(m: Mask, k: nat)
    requires k < |GROUPS|
    ensures Misses(m, GROUPS[k]) ==> Misses(Closure(m), GROUPS[k])
    ensures !Misses(m, GROUPS[k]) ==> Covers(Closure(m), GROUPS[k])
  {
    GroupsApart();
    if Misses(m, GROUPS[k]) {
      WidenAllUntouched(m, GROUPS, k);
    } else {
      WidenAllTouched(m, GROUPS, k);
    }
  }

  /** Bits that belong to no group are kept as they are. */
  lemma ClosureOutsideGroups(m: Mask, h: Mask)
    requires forall i :: 0 <= i < |GROUPS| ==> Misses(h, GROUPS[i])
    ensures SameOn(Closure(m), m, h)
  {
    WidenAllOutside(m, GROUPS, h);
  }

  // ---- The table ----

  lemma TableWhole(i: nat, g: Mask)
    requires i < |MODES| && g in GROUPS
    ensures WholeGroup(MODES[i], g)
  {
    if i < 8 {
    } else if i < 16 {
    } else {
    }
  }

  lemma TableClosed(i: nat)
    requires i < |MODES|
    ensures Closed(MODES[i])
  {
    forall g | g in GROUPS ensures WholeGroup(MODES[i], g) {
      TableWhole(i, g);
    }
  }

  lemma TableClosure(i: nat)
    requires i < |MODES|
    ensures Closure(MODES[i]) == MODES[i]
  {
    TableClosed(i);
    ClosedIsOwnClosure(MODES[i]);
    ClosureIsLeast(MODES[i]);
    ClosureUnique(MODES[i], MODES[i], Closure(MODES[i]));
  }

  /** Two entries of the table coincide, and only those two. */
  lemma TableDistinct(i: nat, j: nat)
    requires i < j < |MODES|
    ensures MODES[i] == MODES[j] <==> i == 0 && j == 3
  {
    if i < 4 {
    } else if i < 8 {
    } else if i < 14 {
    } else {
    }
  }

  // ---- networkMode ----

  lemma WidenAllNext(m: Mask, gs: seq<Mask>, k: nat)
    requires k < |gs|
    ensures WidenAll(m, gs[..k + 1]) == Widen(WidenAll(m, gs[..k]), gs[k])
  {
    assert gs[..k + 1][..k] == gs[..k];
  }

  method WidenLoop(mask: Mask, gs: seq<Mask>) returns (wide: Mask)
    ensures wide == WidenAll(mask, gs)
  {
    wide := mask;
    for k := 0 to |gs|
      invariant wide == WidenAll(mask, gs[..k])
    {
      WidenAllNext(mask, gs, k);
      if !Misses(wide, gs[k]) {
        wide := wide | gs[k];
      }
    }
    assert gs[..|gs|] == gs;
  }

  method FirstIndexLoop(m: Mask, table: seq<Mask>) returns (r: int)
    ensures r == -1 <==> m !in table
    ensures r != -1 ==> 0 <= r < |table| && table[r] == m && m !in table[..r]
  {
    for i := 0 to |table|
      invariant m !in table[..i]
    {
      if m == table[i] {
        return i;
      }
    }
    return -1;
  }

  /** The mode asked of the modem: the first entry that is the closure of the mask,
      or -1 when none is. */
  ghost predicate ModeFor(mask: Mask, mode: int) {
    && -1 <= mode < |MODES|
    && (mode >= 0 ==> IsClosure(mask, MODES[mode]))
    && forall i :: 0 <= i < (if mode == -1 then |MODES| else mode) ==> !IsClosure(mask, MODES[i])
  }

  method NetworkMode(mask: Mask) returns (mode: int)
    ensures ModeFor(mask, mode)
  {
    var wide := WidenLoop(mask, GROUPS);
    mode := FirstIndexLoop(wide, MODES);
    ClosureIsLeast(mask);
    forall i | 0 <= i < |MODES| && IsClosure(mask, MODES[i]) ensures MODES[i] == wide {
      ClosureUnique(mask, MODES[i], wide);
    }
  }

  lemma ModeUnique(mask: Mask, a: int, b: int)
    requires ModeFor(mask, a) && ModeFor(mask, b)
    ensures a == b
  {
  }

  /** Accepted exactly when the closure is in the table. */
  lemma AcceptedIff(mask: Mask, mode: int)
    requires ModeFor(mask, mode)
    ensures mode >= 0 <==> Closure(mask) in MODES
    ensures mode >= 0 ==> MODES[mode] == Closure(mask)
  {
    ClosureIsLeast(mask);
    if mode >= 0 {
      ClosureUnique(mask, MODES[mode], Closure(mask));
    }
  }

  const KNOWN: Mask := GSM_GROUP | WCDMA_GROUP | CDMA_GROUP | EVDO_GROUP | LTE_GROUP | TD_GROUP

  lemma TableKnown(i: nat)
    requires i < |MODES|
    ensures Subset(MODES[i], KNOWN) && MODES[i] != 0
  {
    if i < 8 {
    } else if i < 16 {
    } else {
    }
  }

  lemma ZeroClosure(c: Mask)
    requires IsClosure(0, c)
    ensures c == 0
  {
    assert Closed(0) && Subset(0, 0);
  }

  /** A bitmap with a bit the legacy modem has no name for is refused, and so is
      the empty one: neither becomes a wider mode. */
  lemma UnknownRefused(mask: Mask, mode: int)
    requires ModeFor(mask, mode)
    requires mask == 0 || !Subset(mask, KNOWN)
    ensures mode == -1
  {
    if mode >= 0 {
      TableKnown(mode);
      if mask == 0 {
        ZeroClosure(MODES[mode]);
      } else {
        SubsetTrans(mask, MODES[mode], KNOWN);
      }
    }
  }

  // ---- Set, then get ----

  datatype RadioError = NoError | InvalidArguments | InvalidResponse | FromModem(code: int)

  datatype Setting = Refused(error: RadioError) | Requested(mode: int)

  /** setPreferredNetworkTypeBitmap, up to the request it makes of the modem. */
  method SetBitmap(mask: Mask) returns (s: Setting)
    ensures s.Refused? <==> Closure(mask) !in MODES
    ensures s.Refused? ==> s.error == InvalidArguments
    ensures s.Requested? ==> ModeFor(mask, s.mode) && s.mode >= 0
  {
    var mode := NetworkMode(mask);
    AcceptedIff(mask, mode);
    s := if mode < 0 then Refused(InvalidArguments) else Requested(mode);
  }

  /** bitmapResponse: what is delivered for the mode the modem reports. */
  function BitmapResponse(error: RadioError, mode: int): (RadioError, Mask) {
    if error != NoError then (error, 0)
    else if mode < 0 || mode >= |MODES| then (InvalidResponse, 0)
    else (NoError, MODES[mode])
  }

  /** A mode that the table does not have is an invalid response, an error of the modem is
      passed on, and neither comes with a bitmap. */
  lemma ResponseExact(error: RadioError, mode: int)
    ensures BitmapResponse(error, mode).0 == NoError <==> error == NoError && 0 <= mode < 23
    ensures error != NoError ==> BitmapResponse(error, mode) == (error, 0)
    ensures error == NoError && !(0 <= mode < 23) ==> BitmapResponse(error, mode) == (InvalidResponse, 0)
  {
  }

  /** Reading back an accepted setting gives exactly the closure of what was set,
      which is what was set exactly when it splits no group. */
  lemma SetThenGet(mask: Mask, mode: int)
    requires ModeFor(mask, mode) && mode >= 0
    ensures BitmapResponse(NoError, mode) == (NoError, Closure(mask))
    ensures Subset(mask, Closure(mask))
    ensures Closure(mask) == mask <==> Closed(mask)
  {
    AcceptedIff(mask, mode);
    ClosureIsLeast(mask);
    ClosedIsOwnClosure(mask);
    if Closed(mask) {
      ClosureUnique(mask, mask, Closure(mask));
    }
  }

  lemma GsmClosure()
    ensures Closure(GSM) == GSM_GROUP == MODES[1]
  {
    assert GROUPS[..5] == GROUPS;
    WidenAllNext(GSM, GROUPS, 4);
    WidenAllNext(GSM, GROUPS, 3);
    WidenAllNext(GSM, GROUPS, 2);
    WidenAllNext(GSM, GROUPS, 1);
    WidenAllNext(GSM, GROUPS, 0);
  }

  /** An accepted bitmap that is read back changed: one bit of the GSM group is set,
      all three come back. */
  lemma SplitGroupWidened(mode: int)
    requires ModeFor(GSM, mode)
    ensures mode == 1
    ensures BitmapResponse(NoError, mode) == (NoError, GSM_GROUP) && GSM_GROUP != GSM
  {
    GsmClosure();
    AcceptedIff(GSM, mode);
  }

  /** Every bitmap of the table is accepted and read back as it is; the mode asked
      for is its own, except that 3 is asked for as 0. */
  lemma TableRoundTrips(i: nat, mode: int)
    requires i < |MODES| && ModeFor(MODES[i], mode)
    ensures mode == if i == 3 then 0 else i
    ensures BitmapResponse(NoError, mode) == (NoError, MODES[i])
  {
    TableClosure(i);
    AcceptedIff(MODES[i], mode);
    TableDistinct(0, 3);
    ClosureIsLeast(MODES[i]);
    if mode < i {
      TableDistinct(mode, i);
    }
  }

  /** Setting what was read back asks for the same mode again. */
  lemma GetThenSet(mask: Mask, mode: int, again: int)
    requires ModeFor(mask, mode) && mode >= 0
    requires ModeFor(BitmapResponse(NoError, mode).1, again)
    ensures again == mode
  {
    TableDistinct(0, 3);
    TableRoundTrips(mode, again);
  }
}
