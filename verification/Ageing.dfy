/** The one-second sweep: who survives it, what its flags say about the survivors, and that a silent station
    is gone in time. */
module Ageing {
  import opened Types
  import opened MacTable
  import opened Steps
  import opened Membership
  import opened DeliveryOrder
  import opened DtimDelivery
  import AclList

  // The station in slot `i` survives a sweep from `s`.
  predicate Survives(s: Ap, i: nat)
    requires Shape(s) && i < MAX_LEN_OF_MAC_TABLE
  {
    var e := s.entries[i];
    && i >= 1 && IsClient(e)
    && (e.sst == Assoc || e.noDataIdleCount + 1 < e.assocDeadLine)
    && e.noDataIdleCount + 1 < e.staIdleTimeout
    && (e.psMode == PwrSave || e.continueTxFailCnt < s.entryLifeCheck)
  }

  // The station in slot `i` is asleep and has not been dropped for failing to associate.
  predicate SeenSleeping(s: Ap, i: nat)
    requires Shape(s) && i < MAX_LEN_OF_MAC_TABLE
  {
    var e := s.entries[i];
    i >= 1 && IsClient(e) && e.psMode == PwrSave && (e.sst == Assoc || e.noDataIdleCount + 1 < e.assocDeadLine)
  }

  // What a survivor looks like: one second older, otherwise unchanged but for its queue and the keep-alive counter.
  predicate Older(e: Entry, g: Entry) {
    && SameId(e, g) && g.psMode == e.psMode && g.noDataIdleCount == e.noDataIdleCount + 1
    && g.staIdleTimeout == e.staIdleTimeout && g.assocDeadLine == e.assocDeadLine
    && g.continueTxFailCnt == e.continueTxFailCnt && g.portSecured == e.portSecured && g.ralinkChipset == e.ralinkChipset
  }

  // The effect of the sweep on slot `i`.
  predicate Swept(s: Ap, t: Ap, i: nat)
    requires Shape(s) && Shape(t) && i < MAX_LEN_OF_MAC_TABLE
  {
    if Survives(s, i) then Older(s.entries[i], t.entries[i]) else !IsClient(t.entries[i]) || i == 0
  }

  lemma KeepAliveEffect(s: Ap, i: nat)
    requires Shape(s) && i < MAX_LEN_OF_MAC_TABLE
    ensures var t := KeepAlive(s, i);
            && (forall j :: 0 <= j < MAX_LEN_OF_MAC_TABLE && j != i ==> t.entries[j] == s.entries[j])
            && t.entries[i] == s.entries[i].(stationKeepAliveCount := t.entries[i].stationKeepAliveCount)
            && t.entryLifeCheck == s.entryLifeCheck
            && t.fAnyStationInPsm == s.fAnyStationInPsm && t.fAllStationAsRalink == s.fAllStationAsRalink
  {
  }

  lemma CollectEffect(s: Ap, i: nat)
    requires Shape(s) && i < MAX_LEN_OF_MAC_TABLE
    ensures var t := CollectPsQueue(s, i);
            && (forall j :: 0 <= j < MAX_LEN_OF_MAC_TABLE && j != i ==> t.entries[j] == s.entries[j])
            && t.entries[i] == s.entries[i].(psQueue := t.entries[i].psQueue, psQIdleCount := t.entries[i].psQIdleCount)
            && t.entryLifeCheck == s.entryLifeCheck
            && t.fAnyStationInPsm == s.fAnyStationInPsm && t.fAllStationAsRalink == s.fAllStationAsRalink
  {
  }

  lemma DeleteSlotEffect(s: Ap, i: nat)
    requires Shape(s) && i < MAX_LEN_OF_MAC_TABLE
    ensures var t := DeleteSlot(s, i);
            && (forall j :: 0 <= j < MAX_LEN_OF_MAC_TABLE && j != i ==> t.entries[j] == s.entries[j])
            && !IsClient(t.entries[i])
            && t.entryLifeCheck == s.entryLifeCheck
            && t.fAnyStationInPsm == s.fAnyStationInPsm && t.fAllStationAsRalink == s.fAllStationAsRalink
  {
  }

  // The effect of the turn of slot `i` on the whole table and on the flags.
  predicate SweptAt(s: Ap, t: Ap, i: nat)
    requires Shape(s) && Shape(t) && i < MAX_LEN_OF_MAC_TABLE
  {
    && (forall j :: 0 <= j < MAX_LEN_OF_MAC_TABLE && j != i ==> t.entries[j] == s.entries[j])
    && Swept(s, t, i)
    && t.entryLifeCheck == s.entryLifeCheck
    && (t.fAnyStationInPsm <==> s.fAnyStationInPsm || SeenSleeping(s, i))
    && (t.fAllStationAsRalink <==> s.fAllStationAsRalink && (Survives(s, i) ==> s.entries[i].ralinkChipset))
  }

  lemma DroppedAtDeadline(s: Ap, i: nat)
    requires Shape(s) && 1 <= i < MAX_LEN_OF_MAC_TABLE && IsClient(s.entries[i])
    requires var e := s.entries[i]; e.sst != Assoc && e.noDataIdleCount + 1 >= e.assocDeadLine
    ensures SweptAt(s, SweepEntry(s, i), i)
  {
    DeleteSlotEffect(SetEntry(s, i, Tick(s.entries[i])), i);
    hide DeleteSlot;
  }

  // The state after the first half of the turn of a client within its deadline.
  function Probed(s: Ap, i: nat): (r: Ap)
    requires Shape(s) && i < MAX_LEN_OF_MAC_TABLE
    ensures Shape(r)
  {
    var e := Tick(s.entries[i]);
    var s1 := SetEntry(s, i, e);
    KeepAlive(if e.psMode == PwrSave then s1.(fAnyStationInPsm := true) else s1, i)
  }

  lemma ProbedEffect(s: Ap, i: nat)
    requires Shape(s) && 1 <= i < MAX_LEN_OF_MAC_TABLE
    ensures var t := Probed(s, i);
            && (forall j :: 0 <= j < MAX_LEN_OF_MAC_TABLE && j != i ==> t.entries[j] == s.entries[j])
            && Older(s.entries[i], t.entries[i])
            && t.entryLifeCheck == s.entryLifeCheck
            && (t.fAnyStationInPsm <==> s.fAnyStationInPsm || s.entries[i].psMode == PwrSave)
            && t.fAllStationAsRalink == s.fAllStationAsRalink
  {
    var e := Tick(s.entries[i]);
    var s1 := SetEntry(s, i, e);
    KeepAliveEffect(if e.psMode == PwrSave then s1.(fAnyStationInPsm := true) else s1, i);
    hide KeepAlive;
  }

  lemma WithinDeadline(s: Ap, i: nat)
    requires Shape(s) && 1 <= i < MAX_LEN_OF_MAC_TABLE && IsClient(s.entries[i])
    requires var e := s.entries[i]; e.sst == Assoc || e.noDataIdleCount + 1 < e.assocDeadLine
    ensures SweptAt(s, SweepEntry(s, i), i)
  {
    var e := Tick(s.entries[i]);
    var s2 := Probed(s, i);
    ProbedEffect(s, i);
    assert SweepEntry(s, i) ==
           if AgedOut(s2, e) then DeleteSlot(s2, i)
           else if e.ralinkChipset then CollectPsQueue(s2, i)
           else CollectPsQueue(s2, i).(fAllStationAsRalink := false) by {
      hide DeleteSlot, CollectPsQueue, KeepAlive, AgedOut;
    }
    hide SweepEntry, DeleteSlot, CollectPsQueue, Probed, KeepAlive;
    if AgedOut(s2, e) {
      DeleteSlotEffect(s2, i);
    } else {
      CollectEffect(s2, i);
    }
  }

  lemma SweepEntryEffect(s: Ap, i: nat)
    requires Shape(s) && 1 <= i < MAX_LEN_OF_MAC_TABLE
    ensures SweptAt(s, SweepEntry(s, i), i)
  {
    var e := s.entries[i];
    if IsClient(e) {
      if e.sst != Assoc && e.noDataIdleCount + 1 >= e.assocDeadLine {
        DroppedAtDeadline(s, i);
      } else {
        WithinDeadline(s, i);
      }
      hide SweepEntry;
    }
  }

  lemma {:induction false} SweepFromEffect(s: Ap, i: nat, j: nat)
    requires Shape(s) && 1 <= i <= MAX_LEN_OF_MAC_TABLE && j < MAX_LEN_OF_MAC_TABLE
    ensures var t := SweepFrom(s, i);
            && (if j < i then t.entries[j] == s.entries[j] else Swept(s, t, j))
            && t.entryLifeCheck == s.entryLifeCheck
    decreases MAX_LEN_OF_MAC_TABLE - i
  {
    if i < MAX_LEN_OF_MAC_TABLE {
      SweepEntryEffect(s, i);
      hide SweepEntry;
      SweepFromEffect(SweepEntry(s, i), i + 1, j);
    }
  }

  // Every station from slot `i` on that survives the sweep is a Ralink station.
  predicate AllRalink(s: Ap, i: nat)
    requires Shape(s)
  {
    forall j :: i <= j < MAX_LEN_OF_MAC_TABLE && Survives(s, j) ==> s.entries[j].ralinkChipset
  }

  lemma {:induction false} SweepFromFlags(s: Ap, i: nat)
    requires Shape(s) && 1 <= i <= MAX_LEN_OF_MAC_TABLE
    ensures var t := SweepFrom(s, i);
            && (t.fAnyStationInPsm <==> s.fAnyStationInPsm || exists j :: i <= j < MAX_LEN_OF_MAC_TABLE && SeenSleeping(s, j))
            && (t.fAllStationAsRalink <==> s.fAllStationAsRalink && AllRalink(s, i))
    decreases MAX_LEN_OF_MAC_TABLE - i
  {
    if i < MAX_LEN_OF_MAC_TABLE {
      SweepEntryEffect(s, i);
      var s1 := SweepEntry(s, i);
      hide SweepEntry;
      SweepFromFlags(s1, i + 1);
      assert forall j :: i < j < MAX_LEN_OF_MAC_TABLE ==> SeenSleeping(s1, j) == SeenSleeping(s, j) && Survives(s1, j) == Survives(s, j);
    }
  }

  lemma {:induction false} PortsExact(s: Ap, b: nat, c: nat)
    requires Shape(s) && b <= |s.bss| && c < |s.bss|
    ensures var t := PortsFrom(s, b);
            && |t.bss| == |s.bss| && t.entries == s.entries
            && t.fAnyStationInPsm == s.fAnyStationInPsm && t.fAllStationAsRalink == s.fAllStationAsRalink
            && (c >= b ==> (t.bss[c].portSecured <==> AnyPortSecured(s, c)))
            && (c < b ==> t.bss[c].portSecured == s.bss[c].portSecured)
    decreases |s.bss| - b
  {
    if b < |s.bss| {
      PortsExact(SetBss(s, b, s.bss[b].(portSecured := AnyPortSecured(s, b))), b + 1, c);
    }
  }

  lemma {:induction false} BcmcPorts(s: Ap, b: nat, c: nat)
    requires Shape(s) && b <= |s.bss| && c < |s.bss|
    ensures var t := BcmcClearFrom(s, b);
            && |t.bss| == |s.bss| && t.entries == s.entries && t.bss[c].portSecured == s.bss[c].portSecured
            && t.fAnyStationInPsm == s.fAnyStationInPsm && t.fAllStationAsRalink == s.fAllStationAsRalink
    decreases |s.bss| - b
  {
    if b < |s.bss| {
      BcmcPorts(TimClear(s, b, 0), b + 1, c);
    }
  }

  lemma CollectMcastPorts(s: Ap, c: nat)
    requires Shape(s) && c < |s.bss|
    ensures var t := CollectMcast(s);
            && |t.bss| == |s.bss| && t.entries == s.entries && t.bss[c].portSecured == s.bss[c].portSecured
            && t.fAnyStationInPsm == s.fAnyStationInPsm && t.fAllStationAsRalink == s.fAllStationAsRalink
  {
    BcmcPorts(Release(s, s.mcastPsQueue).(mcastPsQueue := [], mcastPsQIdleCount := 0), 0, c);
  }

  // The three parts of the sweep put together.
  lemma SweepParts(s: Ap, c: nat)
    requires Shape(s) && c < |s.bss|
    ensures var t := Sweep(s); var u := SweepFrom(s.(fAnyStationInPsm := false, fAllStationAsRalink := true), 1);
            && t.entries == u.entries && |t.bss| == |s.bss|
            && t.fAnyStationInPsm == u.fAnyStationInPsm && t.fAllStationAsRalink == u.fAllStationAsRalink
            && (t.bss[c].portSecured <==> AnyPortSecured(t, c))
  {
    var s0 := s.(fAnyStationInPsm := false, fAllStationAsRalink := true);
    hide SweepFrom, PortsFrom, CollectMcast;
    var u := SweepFrom(s0, 1);
    SweepFromBss(s0, 1);
    PortsExact(u, 0, c);
    CollectMcastPorts(PortsFrom(u, 0), c);
  }

  lemma {:induction false} SweepFromBss(s: Ap, i: nat)
    requires Shape(s) && i <= MAX_LEN_OF_MAC_TABLE
    ensures |SweepFrom(s, i).bss| == |s.bss|
    decreases MAX_LEN_OF_MAC_TABLE - i
  {
    if i < MAX_LEN_OF_MAC_TABLE {
      SweepEntryBss(s, i);
      hide SweepEntry;
      SweepFromBss(SweepEntry(s, i), i + 1);
    }
  }

  lemma SweepEntryBss(s: Ap, i: nat)
    requires Shape(s) && i < MAX_LEN_OF_MAC_TABLE
    ensures |SweepEntry(s, i).bss| == |s.bss|
  {
    SweepEntryGood(s, i);
    hide SweepEntry;
  }

  /** A station survives a sweep if and only if it is associated or within the association deadline, within the
      silence limit, and asleep or within the failure limit; every other slot is free afterwards. */
  lemma SweepSurvivors(s: Ap, j: nat)
    requires Shape(s) && 1 <= j < MAX_LEN_OF_MAC_TABLE
    ensures IsClient(Sweep(s).entries[j]) <==> Survives(s, j)
    ensures Survives(s, j) ==> Older(s.entries[j], Sweep(s).entries[j])
  {
    SweepParts(s, 0);
    SweepFromEffect(s.(fAnyStationInPsm := false, fAllStationAsRalink := true), 1, j);
    hide Sweep, SweepFrom;
  }

  /** After a sweep, a BSS is marked secured exactly when one of its stations is, all stations are marked
      Ralink exactly when every survivor is, and multicast is held back exactly when a sleeping station was seen,
      in particular whenever a survivor sleeps. */
  lemma SweepFlags(s: Ap, c: nat)
    requires Shape(s) && c < |s.bss|
    ensures |Sweep(s).bss| == |s.bss| && (Sweep(s).bss[c].portSecured <==> AnyPortSecured(Sweep(s), c))
    ensures Sweep(s).fAllStationAsRalink <==>
              forall j :: 1 <= j < MAX_LEN_OF_MAC_TABLE && IsClient(Sweep(s).entries[j]) ==> Sweep(s).entries[j].ralinkChipset
    ensures Sweep(s).fAnyStationInPsm <==> exists j :: 1 <= j < MAX_LEN_OF_MAC_TABLE && SeenSleeping(s, j)
    ensures forall j :: 1 <= j < MAX_LEN_OF_MAC_TABLE && IsClient(Sweep(s).entries[j]) && Sweep(s).entries[j].psMode == PwrSave
              ==> Sweep(s).fAnyStationInPsm
  {
    SweepParts(s, c);
    var s0 := s.(fAnyStationInPsm := false, fAllStationAsRalink := true);
    SweepFromFlags(s0, 1);
    hide Sweep, SweepFrom;
    assert forall j :: 1 <= j < MAX_LEN_OF_MAC_TABLE ==> SeenSleeping(s0, j) == SeenSleeping(s, j) && Survives(s0, j) == Survives(s, j);
    forall j | 1 <= j < MAX_LEN_OF_MAC_TABLE
      ensures IsClient(Sweep(s).entries[j]) <==> Survives(s, j)
      ensures Survives(s, j) ==> Older(s.entries[j], Sweep(s).entries[j])
    {
      SweepSurvivors(s, j);
    }
  }

  // ---------- a silent station ----------

  predicate Holds(s: Ap, w: nat, a: Mac)
    requires Shape(s) && w < MAX_LEN_OF_MAC_TABLE
  {
    IsClient(s.entries[w]) && s.entries[w].addr == a
  }

  // The event comes from the station `a` in slot `w`: a frame of it, or an acknowledgement by it.
  predicate HeardFrom(e: Event, w: nat, a: Mac) {
    match e
    case EvRxData(v, _, _) => v == w
    case EvRxAction(v, _, _) => v == w
    case EvTxStatus(v, ok) => v == w && ok
    case EvAuth(f, _) => f.addr2 == a
    case EvAssoc(f) => f.addr2 == a
    case _ => false
  }

  // If the station is in its slot in `t`, it was there in `s`, is `d` seconds older and within its silence limit.
  predicate Quiet(s: Ap, t: Ap, w: nat, a: Mac, d: nat) {
    && Shape(s) && Shape(t) && w < MAX_LEN_OF_MAC_TABLE
    && (Holds(t, w, a) ==>
          && Holds(s, w, a)
          && t.entries[w].noDataIdleCount == s.entries[w].noDataIdleCount + d
          && t.entries[w].staIdleTimeout == s.entries[w].staIdleTimeout
          && (d > 0 ==> t.entries[w].noDataIdleCount < t.entries[w].staIdleTimeout))
  }

  lemma QuietTrans(s: Ap, t: Ap, u: Ap, w: nat, a: Mac, d: nat, d': nat)
    requires Quiet(s, t, w, a, d) && Quiet(t, u, w, a, d')
    ensures Quiet(s, u, w, a, d + d')
  {
  }

  lemma DeleteQuiet(s: Ap, v: nat, addr: Mac, w: nat, a: Mac)
    requires Shape(s) && w < MAX_LEN_OF_MAC_TABLE
    ensures Quiet(s, Delete(s, v, addr), w, a, 0) && Quiet(s, DeleteSlot(s, v), w, a, 0)
  {
  }

  lemma SendQuiet(s: Ap, r: SendReq, w: nat, a: Mac)
    requires Shape(s) && ReqOk(r) && w < MAX_LEN_OF_MAC_TABLE
    ensures Quiet(s, Send(s, r), w, a, 0)
  {
  }

  lemma ReleaseQuiet(s: Ap, aid: nat, w: nat, a: Mac)
    requires Shape(s) && aid < MAX_LEN_OF_MAC_TABLE && w < MAX_LEN_OF_MAC_TABLE
    ensures Quiet(s, ReleaseAll(s, aid), w, a, 0) && Quiet(s, ReleaseOne(s, aid), w, a, 0)
    ensures Quiet(s, ClearIfEmpty(s, aid), w, a, 0)
  {
  }

  lemma TouchedQuiet(s: Ap, v: nat, w: nat, a: Mac)
    requires Shape(s) && v < MAX_LEN_OF_MAC_TABLE && w < MAX_LEN_OF_MAC_TABLE
    ensures Quiet(s, SetEntry(s, v, s.entries[v].(continueTxFailCnt := 0)), w, a, 0)
  {
  }

  lemma HandlePsPollQuiet(s: Ap, addr: Mac, aid: nat, isActive: bool, w: nat, a: Mac)
    requires Shape(s) && aid < MAX_LEN_OF_MAC_TABLE && w < MAX_LEN_OF_MAC_TABLE
    ensures Quiet(s, HandlePsPoll(s, addr, aid, isActive), w, a, 0)
  {
    hide ReleaseAll, ReleaseOne, ClearIfEmpty, Quiet, SetEntry;
    var s1 := SetEntry(s, aid, s.entries[aid].(continueTxFailCnt := 0));
    TouchedQuiet(s, aid, w, a);
    SelfQuiet(s, w, a);
    ReleaseQuiet(s1, aid, w, a);
    var s2 := if isActive then ReleaseAll(s1, aid) else ReleaseOne(s1, aid);
    ReleaseQuiet(s2, aid, w, a);
    QuietTrans(s, s1, s2, w, a, 0, 0);
    QuietTrans(s, s2, ClearIfEmpty(s2, aid), w, a, 0, 0);
  }

  lemma PsIndicateQuiet(s: Ap, addr: Mac, v: nat, psm: PsMode, w: nat, a: Mac)
    requires Shape(s) && w < MAX_LEN_OF_MAC_TABLE && v != w
    ensures Quiet(s, PsIndicate(s, addr, v, psm), w, a, 0)
  {
    if v < MAX_LEN_OF_MAC_TABLE {
      var s1 := SetEntry(s, v, s.entries[v].(noDataIdleCount := 0, psMode := psm));
      HandlePsPollQuiet(s1, addr, v, true, w, a);
      hide HandlePsPoll;
    }
  }

  lemma {:induction false} UpdateAclQuiet(s: Ap, b: nat, i: nat, w: nat, a: Mac)
    requires Shape(s) && b < |s.bss| && i <= MAX_LEN_OF_MAC_TABLE && w < MAX_LEN_OF_MAC_TABLE
    ensures Quiet(s, UpdateAclFrom(s, b, i), w, a, 0)
    decreases MAX_LEN_OF_MAC_TABLE - i
  {
    if i < MAX_LEN_OF_MAC_TABLE {
      DeleteQuiet(s, i, s.entries[i].addr, w, a);
      DeleteGood(s, i, s.entries[i].addr);
      UpdateAclQuiet(Delete(s, i, s.entries[i].addr), b, i + 1, w, a);
      UpdateAclQuiet(s, b, i + 1, w, a);
      hide Delete;
    }
  }

  lemma AclQuiet(s: Ap, b: nat, x: Bss, w: nat, a: Mac)
    requires Shape(s) && b < |s.bss| && |x.timBitmaps| == WLAN_MAX_NUM_OF_TIM && w < MAX_LEN_OF_MAC_TABLE
    ensures Quiet(s, UpdateAcl(SetBss(s, b, x), b), w, a, 0)
  {
    UpdateAclQuiet(SetBss(s, b, x), b, 0, w, a);
  }

  lemma EnsureQuiet(s: Ap, v: nat, addr: Mac, b: nat, w: nat, a: Mac)
    requires Shape(s) && v <= |s.entries| && b < |s.bss| && w < MAX_LEN_OF_MAC_TABLE && addr != a
    ensures Quiet(s, Ensure(s, v, addr, b).0, w, a, 0)
  {
  }

  lemma SetSstQuiet(s: Ap, v: nat, sst: Sst, w: nat, a: Mac)
    requires Shape(s) && v < |s.entries| && w < MAX_LEN_OF_MAC_TABLE
    ensures Quiet(s, SetSst(s, v, sst), w, a, 0)
  {
  }

  lemma AuthReqAtQuiet(s: Ap, v: nat, b: nat, f: AuthFrame, nonce: Challenge, w: nat, a: Mac)
    requires Shape(s) && v <= |s.entries| && b < |s.bss| && w < MAX_LEN_OF_MAC_TABLE && f.addr2 != a
    ensures Quiet(s, AuthReqAt(s, v, b, f, nonce), w, a, 0)
  {
    DeleteQuiet(s, v, f.addr2, w, a);
    EnsureQuiet(s, v, f.addr2, b, w, a);
    var (s1, u) := Ensure(s, v, f.addr2, b);
    if u < |s1.entries| {
      SetSstQuiet(s1, u, Auth, w, a);
      SetSstQuiet(s1, u, NotAuth, w, a);
    }
    hide DeleteSlot, Ensure, AclPasses, SetSst, AcceptsOpen, AcceptsKey;
  }

  lemma RehomeQuiet(s: Ap, v: nat, addr1: Mac, w: nat, a: Mac)
    requires Shape(s) && v <= |s.entries| && w < MAX_LEN_OF_MAC_TABLE
    ensures Quiet(s, Rehome(s, v, addr1).0, w, a, 0)
  {
    DeleteQuiet(s, v, addr1, w, a);
    hide DeleteSlot;
  }

  lemma AuthReqQuiet(s: Ap, f: AuthFrame, nonce: Challenge, w: nat, a: Mac)
    requires Shape(s) && w < MAX_LEN_OF_MAC_TABLE && f.addr2 != a
    ensures Quiet(s, AuthReq(s, f, nonce), w, a, 0)
  {
    var b := FindBss(s.bss, f.addr1);
    if b < |s.bss| {
      RehomeQuiet(s, Lookup(s, f.addr2), f.addr1, w, a);
      var (s1, v) := Rehome(s, Lookup(s, f.addr2), f.addr1);
      AuthReqAtQuiet(s1, v, b, f, nonce, w, a);
    }
    hide AuthReqAt, Rehome, FindBss;
  }

  lemma AuthConfirmQuiet(s: Ap, f: AuthFrame, w: nat, a: Mac)
    requires Shape(s) && w < MAX_LEN_OF_MAC_TABLE
    ensures Quiet(s, AuthConfirm(s, f), w, a, 0)
  {
    if f.wcid < MAX_LEN_OF_MAC_TABLE {
      RehomeQuiet(s, f.wcid, f.addr1, w, a);
      var (s1, v) := Rehome(s, f.wcid, f.addr1);
      DeleteQuiet(s1, v, f.addr2, w, a);
      if v < |s1.entries| {
        SetSstQuiet(s1, v, Auth, w, a);
      }
    }
    hide Rehome, DeleteSlot, SetSst, FindBss;
  }

  lemma AuthQuiet(s: Ap, f: AuthFrame, nonce: Challenge, w: nat, a: Mac)
    requires Shape(s) && w < MAX_LEN_OF_MAC_TABLE && f.addr2 != a
    ensures Quiet(s, RxAuth(s, f, nonce), w, a, 0)
  {
    AuthReqQuiet(s, f, nonce, w, a);
    AuthConfirmQuiet(s, f, w, a);
    hide AuthReq, AuthConfirm;
  }

  lemma AssocQuiet(s: Ap, f: AssocFrame, w: nat, a: Mac)
    requires Shape(s) && w < MAX_LEN_OF_MAC_TABLE && f.addr2 != a
    ensures Quiet(s, AssocReq(s, f), w, a, 0)
  {
    hide AclPasses;
  }

  lemma SweepQuiet(s: Ap, w: nat, a: Mac)
    requires Shape(s) && 1 <= w < MAX_LEN_OF_MAC_TABLE
    ensures Quiet(s, Sweep(s), w, a, 1)
  {
    SweepSurvivors(s, w);
    hide Sweep;
  }

  lemma DtimQuiet(s: Ap, w: nat, a: Mac)
    requires Shape(s) && w < MAX_LEN_OF_MAC_TABLE
    ensures Quiet(s, Dtim(s), w, a, 0)
  {
    DtimLoopMoves(s, 0);
    BcmcKept(DtimLoop(s, 0), 0);
    hide DtimLoop, BcmcClearFrom;
  }

  lemma SelfQuiet(s: Ap, w: nat, a: Mac)
    requires Shape(s) && w < MAX_LEN_OF_MAC_TABLE
    ensures Quiet(s, s, w, a, 0)
  {
  }

  lemma HardwareQuiet(s: Ap, q: nat, v: nat, ok: bool, w: nat, a: Mac)
    requires Shape(s) && q < NUM_OF_TX_RING && w < MAX_LEN_OF_MAC_TABLE
    ensures Quiet(s, Dequeue(s, q, ok), w, a, 0)
    ensures !(v == w && ok) ==> Quiet(s, TxStatus(s, v, ok), w, a, 0)
  {
  }

  function Seconds(e: Event): nat {
    if e.EvSweep? then 1 else 0
  }

  lemma StepQuiet(s: Ap, e: Event, w: nat, a: Mac)
    requires Enabled(s, e) && 1 <= w < MAX_LEN_OF_MAC_TABLE && !HeardFrom(e, w, a)
    ensures Quiet(s, Step(s, e), w, a, Seconds(e))
  {
    hide Send, HandlePsPoll, PsIndicate, ClassFilterPasses, RxAuth, AssocReq, Delete, UpdateAcl, Sweep, Dtim, Dequeue,
         TxStatus, Quiet, Lookup;
    SelfQuiet(s, w, a);
    match e
    case EvSend(r) => SendQuiet(s, r, w, a);
    case EvPsPoll(aid, addr) => if aid < MAX_LEN_OF_MAC_TABLE { HandlePsPollQuiet(s, addr, aid, false, w, a); }
    case EvRxData(v, addr, psm) => PsIndicateQuiet(s, addr, v, psm, w, a); DeleteQuiet(s, v, addr, w, a);
    case EvRxAction(v, addr, psm) => PsIndicateQuiet(s, addr, v, psm, w, a);
    case EvAuth(f, nonce) => AuthQuiet(s, f, nonce, w, a);
    case EvAssoc(f) => AssocQuiet(s, f, w, a);
    case EvDeauth(v, addr) => DeleteQuiet(s, v, addr, w, a);
    case EvDisassoc(v, addr) => DeleteQuiet(s, v, addr, w, a);
    case EvKickOut(addr) => DeleteQuiet(s, Lookup(s, addr), addr, w, a);
    case EvPolicy(b, policy) => AclQuiet(s, b, s.bss[b].(policy := policy), w, a);
    case EvAclAdd(b, addrs) => AclQuiet(s, b, s.bss[b].(acl := AclList.Add(s.bss[b].acl, addrs)), w, a);
    case EvAclDel(b, addrs) => AclQuiet(s, b, s.bss[b].(acl := AclList.Del(s.bss[b].acl, addrs)), w, a);
    case EvAclClear(b) => AclQuiet(s, b, s.bss[b].(acl := []), w, a);
    case EvSweep => SweepQuiet(s, w, a);
    case EvDtim => DtimQuiet(s, w, a);
    case EvDequeue(q, ok) => HardwareQuiet(s, q, 0, ok, w, a);
    case EvTxStatus(v, ok) => HardwareQuiet(s, 0, v, ok, w, a);
  }

  function Sweeps(es: seq<Event>): nat {
    if es == [] then 0 else Seconds(es[0]) + Sweeps(es[1..])
  }

  // Nothing is heard from the station `a` in slot `w` during the run.
  predicate Silent(es: seq<Event>, w: nat, a: Mac) {
    forall k :: 0 <= k < |es| ==> !HeardFrom(es[k], w, a)
  }

  /** A station that is still in its slot after a run in which nothing was heard from it was there all the time and
      has aged by one for each sweep, and the last sweep found it within its silence limit. */
  lemma {:induction false} RunQuiet(s: Ap, es: seq<Event>, w: nat, a: Mac)
    requires Run(s, es) && 1 <= w < MAX_LEN_OF_MAC_TABLE && Silent(es, w, a)
    ensures Quiet(s, Exec(s, es), w, a, Sweeps(es))
    decreases es
  {
    if es != [] {
      hide Step, Enabled, HeardFrom, Quiet;
      StepQuiet(s, es[0], w, a);
      RunQuiet(Step(s, es[0]), es[1..], w, a);
      QuietTrans(s, Step(s, es[0]), Exec(s, es), w, a, Seconds(es[0]), Sweeps(es[1..]));
    }
  }

  /** A silent station is gone after as many sweeps as are left of its silence limit, whatever else happens. */
  lemma SilentStationGone(s: Ap, es: seq<Event>, w: nat)
    requires Run(s, es) && 1 <= w < MAX_LEN_OF_MAC_TABLE && Silent(es, w, s.entries[w].addr)
    requires Sweeps(es) > 0 && s.entries[w].noDataIdleCount + Sweeps(es) >= s.entries[w].staIdleTimeout
    ensures !Holds(Exec(s, es), w, s.entries[w].addr)
  {
    RunQuiet(s, es, w, s.entries[w].addr);
  }
}
