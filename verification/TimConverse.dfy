/** The converse of the TIM agreement: the ways in which the bitmap can mark a station that has no packets, over whole
    runs.  There are two: the keep-alive of a sleeping station, and the deletion of a station with packets. */
module TimConverse {
  import opened Types
  import opened MacTable
  import opened Steps
  import opened PowerSave
  import opened DeliveryOrder
  import opened DtimDelivery
  import opened AuthSafety
  import AclList

  // Slot `w` holds packets for a station of BSS `b`.
  predicate Owned(s: Ap, b: nat, w: nat)
    requires Shape(s) && w < MAX_LEN_OF_MAC_TABLE
  {
    s.entries[w].apidx == b && s.entries[w].psQueue != []
  }

  // BSS `b` marks AID `w` although nothing is buffered for it.
  predicate Stale(s: Ap, b: nat, w: nat)
    requires Shape(s) && b < |s.bss| && w < MAX_LEN_OF_MAC_TABLE
  {
    TimMarked(s, b, w) && !Owned(s, b, w)
  }

  // A station that has just been inserted and has not done anything yet but authenticate.
  predicate Newcomer(e: Entry) {
    && e.sst != Assoc
    && e == ZeroEntry.(kind := EntryClient, addr := e.addr, apidx := e.apidx, sst := e.sst,
                       staIdleTimeout := e.staIdleTimeout, assocDeadLine := MAC_TABLE_ASSOC_TIMEOUT)
  }

  // Whoever was in the slot is not in it any more.
  predicate Vacated(e: Entry) {
    !IsClient(e) || Newcomer(e)
  }

  // Between `s` and `t` the station in slot `w` of BSS `b` was deleted and its packets were released.
  predicate Evicted(s: Ap, t: Ap, b: nat, w: nat)
    requires Shape(s) && Shape(t) && w < MAX_LEN_OF_MAC_TABLE
  {
    && Owned(s, b, w) && IsClient(s.entries[w]) && Vacated(t.entries[w])
    && forall p :: p in s.entries[w].psQueue ==> p in t.released
  }

  // The sweep from `s` probes the sleeping station in slot `w` of BSS `b`.
  predicate Probed(s: Ap, b: nat, w: nat)
    requires Shape(s) && b < |s.bss| && 1 <= w < MAX_LEN_OF_MAC_TABLE
  {
    var e := Tick(s.entries[w]);
    && IsClient(e) && e.apidx == b && e.psMode == PwrSave && (e.sst == Assoc || e.noDataIdleCount < e.assocDeadLine)
    && 0 < s.bss[b].stationKeepAliveTime <= e.noDataIdleCount && e.stationKeepAliveCount == 0
  }

  // Nothing about slot `w` and its mark in `b` changes, and no release is forgotten.
  predicate Untouched(s: Ap, t: Ap, b: nat, w: nat) {
    && Shape(s) && Shape(t) && |t.bss| == |s.bss| && b < |s.bss| && w < MAX_LEN_OF_MAC_TABLE
    && t.entries[w] == s.entries[w] && TimMarked(t, b, w) == TimMarked(s, b, w)
    && t.bss[b].stationKeepAliveTime == s.bss[b].stationKeepAliveTime
    && s.released <= t.released
  }

  // No packets come in; packets that disappear leave a mark only if their station was deleted.
  predicate Fades(s: Ap, t: Ap, b: nat, w: nat) {
    && Shape(s) && Shape(t) && |t.bss| == |s.bss| && b < |s.bss| && w < MAX_LEN_OF_MAC_TABLE
    && s.released <= t.released
    && (Owned(t, b, w) ==> Owned(s, b, w) && t.entries[w].psQueue == s.entries[w].psQueue && t.entries[w].kind == s.entries[w].kind)
    && (Vacated(s.entries[w]) ==> Vacated(t.entries[w]))
    && (Stale(t, b, w) ==> Stale(s, b, w) || Evicted(s, t, b, w))
  }

  lemma FadesTrans(s: Ap, t: Ap, u: Ap, b: nat, w: nat)
    requires Fades(s, t, b, w) && Fades(t, u, b, w)
    ensures Fades(s, u, b, w)
  {
    assert forall p :: p in t.released ==> p in u.released;
  }

  // ---------- the handlers ----------

  lemma DeleteFades(s: Ap, v: nat, addr: Mac, b: nat, w: nat)
    requires Shape(s) && b < |s.bss| && w < MAX_LEN_OF_MAC_TABLE
    ensures Fades(s, Delete(s, v, addr), b, w) && Fades(s, DeleteSlot(s, v), b, w)
  {
    hide TimBit;
  }

  lemma InsertEffect(s: Ap, addr: Mac, c: nat, b: nat, w: nat)
    requires Shape(s) && c < |s.bss| && b < |s.bss| && w < MAX_LEN_OF_MAC_TABLE
    ensures var t := Insert(s, addr, c).0; var i := VacancyFrom(s.entries, 1);
            && |t.bss| == |s.bss| && t.bss[b].timBitmaps == s.bss[b].timBitmaps && t.released == s.released
            && (t.entries[w] == s.entries[w] || (i == w && (t.entries[w] == ZeroEntry || t.entries[w] == NewEntry(s, addr, c))))
  {
  }

  lemma InsertFades(s: Ap, addr: Mac, c: nat, b: nat, w: nat)
    requires Buffered(s) && c < |s.bss| && b < |s.bss| && w < MAX_LEN_OF_MAC_TABLE
    ensures Fades(s, Insert(s, addr, c).0, b, w)
  {
    hide TimBit, Insert;
    InsertEffect(s, addr, c, b, w);
    assert SlotOk(s, w);
  }

  lemma SetSstFades(s: Ap, v: nat, sst: Sst, b: nat, w: nat)
    requires Shape(s) && v < |s.entries| && b < |s.bss| && w < MAX_LEN_OF_MAC_TABLE && sst != Assoc
    ensures Fades(s, SetSst(s, v, sst), b, w)
  {
  }

  lemma AuthReqAtFades(s: Ap, v: nat, c: nat, f: AuthFrame, nonce: Challenge, b: nat, w: nat)
    requires Buffered(s) && v <= |s.entries| && c < |s.bss| && b < |s.bss| && w < MAX_LEN_OF_MAC_TABLE
    ensures Fades(s, AuthReqAt(s, v, c, f, nonce), b, w)
  {
    hide DeleteSlot, Insert, SetSst, AclPasses, Fades, AcceptsOpen, AcceptsKey;
    DeleteFades(s, v, f.addr2, b, w);
    var (s1, u) := Ensure(s, v, f.addr2, c);
    InsertFades(s, f.addr2, c, b, w);
    SelfFades(s, b, w);
    if u < |s1.entries| {
      FadesShape(s, s1, b, w);
      SetSstFades(s1, u, Auth, b, w);
      SetSstFades(s1, u, NotAuth, b, w);
      FadesTrans(s, s1, SetSst(s1, u, Auth), b, w);
      FadesTrans(s, s1, SetSst(s1, u, NotAuth), b, w);
      AuxFades(s, SetSst(s1, u, NotAuth), f.addr2, nonce, b, w);
    }
  }

  lemma SelfFades(s: Ap, b: nat, w: nat)
    requires Shape(s) && b < |s.bss| && w < MAX_LEN_OF_MAC_TABLE
    ensures Fades(s, s, b, w)
  {
  }

  lemma FadesShape(s: Ap, t: Ap, b: nat, w: nat)
    requires Fades(s, t, b, w)
    ensures Shape(t) && b < |t.bss| && |t.bss| == |s.bss|
  {
  }

  lemma AuxFades(s: Ap, t: Ap, addr: Mac, nonce: Challenge, b: nat, w: nat)
    requires Fades(s, t, b, w)
    ensures Fades(s, t.(auxAddr := addr, auxChallenge := nonce), b, w)
  {
  }

  lemma RehomeFades(s: Ap, v: nat, addr1: Mac, b: nat, w: nat)
    requires Buffered(s) && v <= |s.entries| && b < |s.bss| && w < MAX_LEN_OF_MAC_TABLE
    ensures Fades(s, Rehome(s, v, addr1).0, b, w) && Buffered(Rehome(s, v, addr1).0)
  {
    hide DeleteSlot, Fades;
    DeleteFades(s, v, addr1, b, w);
    SelfFades(s, b, w);
    if v < |s.entries| {
      DeleteBuffered(s, v, s.entries[v].addr);
      SlotDelete(s, v);
    }
  }

  lemma SlotDelete(s: Ap, v: nat)
    requires Shape(s) && v < |s.entries|
    ensures DeleteSlot(s, v) == Delete(s, v, s.entries[v].addr)
  {
  }

  lemma AuthReqFades(s: Ap, f: AuthFrame, nonce: Challenge, b: nat, w: nat)
    requires Buffered(s) && b < |s.bss| && w < MAX_LEN_OF_MAC_TABLE
    ensures Fades(s, AuthReq(s, f, nonce), b, w)
  {
    hide AuthReqAt, Rehome, Fades, FindBss;
    SelfFades(s, b, w);
    var c := FindBss(s.bss, f.addr1);
    if c < |s.bss| {
      var (s1, v) := Rehome(s, Lookup(s, f.addr2), f.addr1);
      RehomeFades(s, Lookup(s, f.addr2), f.addr1, b, w);
      FadesShape(s, s1, b, w);
      AuthReqAtFades(s1, v, c, f, nonce, b, w);
      FadesTrans(s, s1, AuthReqAt(s1, v, c, f, nonce), b, w);
    }
    BssFound(s, f.addr1);
  }

  lemma BssFound(s: Ap, addr: Mac)
    ensures FindBss(s.bss, addr) <= |s.bss|
  {
  }

  lemma AuthConfirmFades(s: Ap, f: AuthFrame, b: nat, w: nat)
    requires Buffered(s) && b < |s.bss| && w < MAX_LEN_OF_MAC_TABLE
    ensures Fades(s, AuthConfirm(s, f), b, w)
  {
    hide DeleteSlot, SetSst, Rehome, Fades, FindBss;
    SelfFades(s, b, w);
    if f.wcid < MAX_LEN_OF_MAC_TABLE {
      var (s1, v) := Rehome(s, f.wcid, f.addr1);
      RehomeFades(s, f.wcid, f.addr1, b, w);
      FadesShape(s, s1, b, w);
      DeleteFades(s1, v, f.addr2, b, w);
      FadesTrans(s, s1, DeleteSlot(s1, v), b, w);
      if v < |s1.entries| {
        SetSstFades(s1, v, Auth, b, w);
        FadesTrans(s, s1, SetSst(s1, v, Auth), b, w);
      }
    }
  }

  lemma AuthFades(s: Ap, f: AuthFrame, nonce: Challenge, b: nat, w: nat)
    requires Buffered(s) && b < |s.bss| && w < MAX_LEN_OF_MAC_TABLE
    ensures Fades(s, RxAuth(s, f, nonce), b, w)
  {
    hide AuthReq, AuthConfirm;
    AuthReqFades(s, f, nonce, b, w);
    AuthConfirmFades(s, f, b, w);
    SelfFades(s, b, w);
  }

  lemma {:induction false} UpdateAclFades(s: Ap, c: nat, i: nat, b: nat, w: nat)
    requires Shape(s) && c < |s.bss| && b < |s.bss| && i <= MAX_LEN_OF_MAC_TABLE && w < MAX_LEN_OF_MAC_TABLE
    ensures Fades(s, UpdateAclFrom(s, c, i), b, w)
    decreases MAX_LEN_OF_MAC_TABLE - i
  {
    hide Delete, Fades, AclRejectsEntry;
    SelfFades(s, b, w);
    if i < MAX_LEN_OF_MAC_TABLE {
      var t := Delete(s, i, s.entries[i].addr);
      DeleteFades(s, i, s.entries[i].addr, b, w);
      FadesShape(s, t, b, w);
      UpdateAclFades(t, c, i + 1, b, w);
      FadesTrans(s, t, UpdateAclFrom(t, c, i + 1), b, w);
      UpdateAclFades(s, c, i + 1, b, w);
    }
  }

  lemma AclFades(s: Ap, c: nat, x: Bss, b: nat, w: nat)
    requires Shape(s) && c < |s.bss| && b < |s.bss| && w < MAX_LEN_OF_MAC_TABLE && x.timBitmaps == s.bss[c].timBitmaps
    ensures Fades(s, UpdateAcl(SetBss(s, c, x), c), b, w)
  {
    hide UpdateAclFrom, Fades;
    var t := SetBss(s, c, x);
    SetBssFades(s, c, x, b, w);
    UpdateAclFades(t, c, 0, b, w);
    FadesTrans(s, t, UpdateAclFrom(t, c, 0), b, w);
  }

  lemma SetBssFades(s: Ap, c: nat, x: Bss, b: nat, w: nat)
    requires Shape(s) && c < |s.bss| && b < |s.bss| && w < MAX_LEN_OF_MAC_TABLE && x.timBitmaps == s.bss[c].timBitmaps
    ensures Fades(s, SetBss(s, c, x), b, w)
  {
  }

  // Packets that come in are marked, and the last one that is delivered takes the mark with it.
  predicate NoneStale(s: Ap, t: Ap, b: nat, w: nat) {
    && Shape(s) && Shape(t) && |t.bss| == |s.bss| && b < |s.bss| && w < MAX_LEN_OF_MAC_TABLE
    && (Stale(t, b, w) ==> Stale(s, b, w))
  }

  lemma AssocStale(s: Ap, f: AssocFrame, b: nat, w: nat)
    requires Shape(s) && b < |s.bss| && w < MAX_LEN_OF_MAC_TABLE
    ensures NoneStale(s, AssocReq(s, f), b, w)
  {
    hide TimBit, AclPasses;
  }

  lemma SendStale(s: Ap, r: SendReq, b: nat, w: nat)
    requires Shape(s) && ReqOk(r) && b < |s.bss| && 1 <= w < MAX_LEN_OF_MAC_TABLE && (r.group ==> r.wcid == MCAST_WCID)
    ensures NoneStale(s, Send(s, r), b, w)
  {
    hide TimBitSet, TimBit, Refused;
  }

  lemma ReleaseStale(s: Ap, aid: nat, b: nat, w: nat)
    requires Shape(s) && aid < MAX_LEN_OF_MAC_TABLE && b < |s.bss| && 1 <= w < MAX_LEN_OF_MAC_TABLE
    ensures NoneStale(s, ClearIfEmpty(ReleaseOne(s, aid), aid), b, w)
    ensures NoneStale(s, ClearIfEmpty(ReleaseAll(s, aid), aid), b, w)
  {
    hide EnqueueTx;
    EnqueueLocal(s, aid);
  }

  lemma EnqueueLocal(s: Ap, aid: nat)
    requires Shape(s) && aid < MAX_LEN_OF_MAC_TABLE
    ensures var t := ReleaseOne(s, aid); var q := s.entries[aid].psQueue;
            t.bss == s.bss && t.entries == s.entries[aid := s.entries[aid].(psQueue := if q == [] then q else q[1..])]
    ensures var t := ReleaseAll(s, aid);
            t.bss == s.bss && t.entries == s.entries[aid := s.entries[aid].(psQueue := [])]
  {
  }

  lemma NoneStaleTrans(s: Ap, t: Ap, u: Ap, b: nat, w: nat)
    requires NoneStale(s, t, b, w) && NoneStale(t, u, b, w)
    ensures NoneStale(s, u, b, w)
  {
  }

  lemma SetEntryStale(s: Ap, v: nat, e: Entry, b: nat, w: nat)
    requires Shape(s) && v < MAX_LEN_OF_MAC_TABLE && b < |s.bss| && w < MAX_LEN_OF_MAC_TABLE
    requires e.apidx == s.entries[v].apidx && e.psQueue == s.entries[v].psQueue
    ensures NoneStale(s, SetEntry(s, v, e), b, w) && NoneStale(s, s, b, w)
  {
  }

  lemma HandlePsPollStale(s: Ap, addr: Mac, aid: nat, isActive: bool, b: nat, w: nat)
    requires Shape(s) && aid < MAX_LEN_OF_MAC_TABLE && b < |s.bss| && 1 <= w < MAX_LEN_OF_MAC_TABLE
    ensures NoneStale(s, HandlePsPoll(s, addr, aid, isActive), b, w)
  {
    hide NoneStale, ReleaseOne, ReleaseAll, ClearIfEmpty;
    var e := s.entries[aid].(continueTxFailCnt := 0);
    SetEntryStale(s, aid, e, b, w);
    var s1 := SetEntry(s, aid, e);
    ReleaseStale(s1, aid, b, w);
    if s.entries[aid].addr == addr {
      NoneStaleTrans(s, s1, HandlePsPoll(s, addr, aid, isActive), b, w);
    }
  }

  lemma PsIndicateStale(s: Ap, addr: Mac, v: nat, psm: PsMode, b: nat, w: nat)
    requires Shape(s) && b < |s.bss| && 1 <= w < MAX_LEN_OF_MAC_TABLE
    ensures NoneStale(s, PsIndicate(s, addr, v, psm), b, w)
  {
    hide NoneStale, HandlePsPoll;
    SetEntryStale(s, 0, s.entries[0], b, w);
    if v < MAX_LEN_OF_MAC_TABLE {
      var e := s.entries[v].(noDataIdleCount := 0, psMode := psm);
      SetEntryStale(s, v, e, b, w);
      var s1 := SetEntry(s, v, e);
      HandlePsPollStale(s1, addr, v, true, b, w);
      NoneStaleTrans(s, s1, HandlePsPoll(s1, addr, v, true), b, w);
    }
  }

  // ---------- the sweep ----------

  lemma UntouchedTrans(s: Ap, t: Ap, u: Ap, b: nat, w: nat)
    requires Untouched(s, t, b, w) && Untouched(t, u, b, w)
    ensures Untouched(s, u, b, w)
  {
  }

  lemma KeepAliveElsewhere(s: Ap, i: nat, b: nat, w: nat)
    requires Shape(s) && i < MAX_LEN_OF_MAC_TABLE && b < |s.bss| && w < MAX_LEN_OF_MAC_TABLE && i != w
    ensures Untouched(s, KeepAlive(s, i), b, w)
  {
  }

  lemma DeleteElsewhere(s: Ap, i: nat, b: nat, w: nat)
    requires Shape(s) && i < MAX_LEN_OF_MAC_TABLE && b < |s.bss| && w < MAX_LEN_OF_MAC_TABLE && i != w
    ensures Untouched(s, DeleteSlot(s, i), b, w)
  {
  }

  lemma CollectElsewhere(s: Ap, i: nat, b: nat, w: nat)
    requires Shape(s) && i < MAX_LEN_OF_MAC_TABLE && b < |s.bss| && w < MAX_LEN_OF_MAC_TABLE && i != w
    ensures Untouched(s, CollectPsQueue(s, i), b, w)
  {
    hide TimBitClear, TimBit;
  }

  lemma FieldsElsewhere(s: Ap, t: Ap, i: nat, e: Entry, b: nat, w: nat)
    requires Shape(s) && i < MAX_LEN_OF_MAC_TABLE && b < |s.bss| && w < MAX_LEN_OF_MAC_TABLE && e.apidx < |s.bss|
    requires t.bss == s.bss && t.released == s.released && t.txSwQueue == s.txSwQueue && t.hw == s.hw
    requires t.entries == s.entries || (i != w && t.entries == s.entries[i := e])
    ensures Untouched(s, t, b, w)
  {
  }

  lemma SweepElsewhere(s: Ap, i: nat, b: nat, w: nat)
    requires Shape(s) && i < MAX_LEN_OF_MAC_TABLE && b < |s.bss| && w < MAX_LEN_OF_MAC_TABLE && i != w
    ensures Untouched(s, SweepEntry(s, i), b, w)
  {
    hide Untouched, KeepAlive, DeleteSlot, CollectPsQueue, AgedOut;
    FieldsElsewhere(s, s, i, s.entries[i], b, w);
    if IsClient(s.entries[i]) {
      var e := Tick(s.entries[i]);
      var s1 := SetEntry(s, i, e);
      FieldsElsewhere(s, s1, i, e, b, w);
      DeleteElsewhere(s1, i, b, w);
      UntouchedTrans(s, s1, DeleteSlot(s1, i), b, w);
      var s1' := if e.psMode == PwrSave then s1.(fAnyStationInPsm := true) else s1;
      FieldsElsewhere(s, s1', i, e, b, w);
      KeepAliveElsewhere(s1', i, b, w);
      var s2 := KeepAlive(s1', i);
      UntouchedTrans(s, s1', s2, b, w);
      UntouchedBss(s1', s2, b, w);
      DeleteElsewhere(s2, i, b, w);
      UntouchedTrans(s, s2, DeleteSlot(s2, i), b, w);
      CollectElsewhere(s2, i, b, w);
      var s3 := CollectPsQueue(s2, i);
      UntouchedTrans(s, s2, s3, b, w);
      UntouchedBss(s2, s3, b, w);
      FieldsElsewhere(s3, s3.(fAllStationAsRalink := false), i, s3.entries[i], b, w);
      UntouchedTrans(s, s3, s3.(fAllStationAsRalink := false), b, w);
    }
  }

  lemma UntouchedBss(s: Ap, t: Ap, b: nat, w: nat)
    requires Untouched(s, t, b, w)
    ensures Shape(t) && |t.bss| == |s.bss|
  {
  }

  // Keep-alive sets the mark of the station.
  predicate Probes(s: Ap, b: nat, w: nat)
    requires Shape(s) && b < |s.bss| && 1 <= w < MAX_LEN_OF_MAC_TABLE
  {
    var e := s.entries[w];
    && e.apidx == b && e.psMode == PwrSave && e.stationKeepAliveCount == 0
    && 0 < s.bss[b].stationKeepAliveTime <= e.noDataIdleCount
  }

  // The turn of the slot itself, stage by stage.
  lemma KeepAliveStale(s: Ap, b: nat, w: nat)
    requires Shape(s) && b < |s.bss| && 1 <= w < MAX_LEN_OF_MAC_TABLE
    ensures var t := KeepAlive(s, w); var e := s.entries[w];
            && |t.bss| == |s.bss| && t.released == s.released
            && t.entries[w].apidx == e.apidx && t.entries[w].psQueue == e.psQueue && t.entries[w].kind == e.kind
            && (TimMarked(t, b, w) <==> TimMarked(s, b, w) || Probes(s, b, w))
  {
  }

  lemma CollectStale(s: Ap, b: nat, w: nat)
    requires Shape(s) && b < |s.bss| && w < MAX_LEN_OF_MAC_TABLE
    ensures NoneStale(s, CollectPsQueue(s, w), b, w)
  {
  }

  // Either nothing new is stale, or the station was probed, or it was deleted with its packets.
  predicate Explained(s: Ap, t: Ap, b: nat, w: nat, probed: bool) {
    && Shape(s) && Shape(t) && |t.bss| == |s.bss| && b < |s.bss| && w < MAX_LEN_OF_MAC_TABLE
    && (Stale(t, b, w) ==> Stale(s, b, w) || probed || Evicted(s, t, b, w))
  }

  // The station in slot `w` after the first half of its turn, if it is not dropped at the association deadline.
  function Half(s: Ap, w: nat): (t: Ap)
    requires Shape(s) && w < MAX_LEN_OF_MAC_TABLE
    ensures Shape(t)
  {
    var e := Tick(s.entries[w]);
    var s1 := SetEntry(s, w, e);
    KeepAlive(if e.psMode == PwrSave then s1.(fAnyStationInPsm := true) else s1, w)
  }

  lemma HalfMarks(s: Ap, b: nat, w: nat)
    requires Shape(s) && b < |s.bss| && 1 <= w < MAX_LEN_OF_MAC_TABLE && IsClient(s.entries[w])
    requires var e := Tick(s.entries[w]); e.sst == Assoc || e.noDataIdleCount < e.assocDeadLine
    ensures var t := Half(s, w);
            && |t.bss| == |s.bss| && t.released == s.released
            && t.entries[w].apidx == s.entries[w].apidx && t.entries[w].psQueue == s.entries[w].psQueue
            && t.entries[w].kind == s.entries[w].kind
            && (TimMarked(t, b, w) <==> TimMarked(s, b, w) || Probed(s, b, w))
  {
    hide KeepAlive;
    var e := Tick(s.entries[w]);
    var s1 := SetEntry(s, w, e);
    KeepAliveStale(if e.psMode == PwrSave then s1.(fAnyStationInPsm := true) else s1, b, w);
  }

  lemma DeleteExplained(s: Ap, t: Ap, b: nat, w: nat, probed: bool)
    requires Shape(s) && Shape(t) && b < |s.bss| && |t.bss| == |s.bss| && w < MAX_LEN_OF_MAC_TABLE && t.released == s.released
    requires t.entries[w].apidx == s.entries[w].apidx && t.entries[w].psQueue == s.entries[w].psQueue
    requires t.entries[w].kind == s.entries[w].kind
    requires TimMarked(t, b, w) ==> TimMarked(s, b, w) || probed
    ensures Explained(s, DeleteSlot(t, w), b, w, probed)
    ensures Explained(s, CollectPsQueue(t, w), b, w, probed)
    ensures Explained(s, CollectPsQueue(t, w).(fAllStationAsRalink := false), b, w, probed)
  {
    hide DeleteSlot, CollectPsQueue, Fades;
    DeleteFades(t, w, ZERO_MAC, b, w);
    FadesUnfold(t, DeleteSlot(t, w), b, w);
    CollectStale(t, b, w);
  }

  lemma SweepSlotExplained(s: Ap, b: nat, w: nat)
    requires Shape(s) && b < |s.bss| && 1 <= w < MAX_LEN_OF_MAC_TABLE
    ensures Explained(s, SweepEntry(s, w), b, w, Probed(s, b, w))
  {
    hide KeepAlive, DeleteSlot, CollectPsQueue, AgedOut, Explained, Probed;
    ExplainedSelf(s, b, w);
    if IsClient(s.entries[w]) {
      var e := Tick(s.entries[w]);
      if e.sst != Assoc && e.noDataIdleCount >= e.assocDeadLine {
        DeleteExplained(s, SetEntry(s, w, e), b, w, Probed(s, b, w));
      } else {
        HalfMarks(s, b, w);
        DeleteExplained(s, Half(s, w), b, w, Probed(s, b, w));
      }
    }
  }

  lemma ExplainedSelf(s: Ap, b: nat, w: nat)
    requires Shape(s) && b < |s.bss| && 1 <= w < MAX_LEN_OF_MAC_TABLE
    ensures Explained(s, s, b, w, Probed(s, b, w))
  {
  }

  lemma FadesUnfold(s: Ap, t: Ap, b: nat, w: nat)
    requires Fades(s, t, b, w)
    ensures Shape(t) && |t.bss| == |s.bss| && (Stale(t, b, w) ==> Stale(s, b, w) || Evicted(s, t, b, w))
  {
  }

  // The slots before and after the slot do not matter.
  lemma {:induction false} SweepFromElsewhere(s: Ap, i: nat, b: nat, w: nat)
    requires Shape(s) && i <= MAX_LEN_OF_MAC_TABLE && b < |s.bss| && w < i
    ensures w < MAX_LEN_OF_MAC_TABLE && Untouched(s, SweepFrom(s, i), b, w)
    decreases MAX_LEN_OF_MAC_TABLE - i
  {
    hide SweepEntry, Untouched;
    if i < MAX_LEN_OF_MAC_TABLE {
      SweepElsewhere(s, i, b, w);
      UntouchedBss(s, SweepEntry(s, i), b, w);
      SweepFromElsewhere(SweepEntry(s, i), i + 1, b, w);
      UntouchedTrans(s, SweepEntry(s, i), SweepFrom(s, i), b, w);
    } else {
      FieldsElsewhere(s, s, w, s.entries[w], b, w);
    }
  }

  lemma AfterExplained(s: Ap, t: Ap, u: Ap, b: nat, w: nat, probed: bool)
    requires Explained(s, t, b, w, probed) && Untouched(t, u, b, w)
    ensures Explained(s, u, b, w, probed)
  {
    assert forall p :: p in t.released ==> p in u.released;
  }

  lemma BeforeExplained(s: Ap, t: Ap, u: Ap, b: nat, w: nat)
    requires Untouched(s, t, b, w) && 1 <= w && Explained(t, u, b, w, Probed(t, b, w))
    ensures Explained(s, u, b, w, Probed(s, b, w))
  {
  }

  lemma ExplainedBss(s: Ap, t: Ap, b: nat, w: nat, probed: bool)
    requires Explained(s, t, b, w, probed)
    ensures Shape(t) && |t.bss| == |s.bss|
  {
  }

  lemma {:induction false} SweepFromExplained(s: Ap, i: nat, b: nat, w: nat)
    requires Shape(s) && i <= w < MAX_LEN_OF_MAC_TABLE && 1 <= w && b < |s.bss|
    ensures Explained(s, SweepFrom(s, i), b, w, Probed(s, b, w))
    decreases MAX_LEN_OF_MAC_TABLE - i
  {
    hide SweepEntry, Untouched, Explained, Probed;
    var t := SweepEntry(s, i);
    if i == w {
      SweepSlotExplained(s, b, w);
      ExplainedBss(s, t, b, w, Probed(s, b, w));
      SweepFromElsewhere(t, i + 1, b, w);
      AfterExplained(s, t, SweepFrom(t, i + 1), b, w, Probed(s, b, w));
    } else {
      SweepElsewhere(s, i, b, w);
      UntouchedBss(s, t, b, w);
      SweepFromExplained(t, i + 1, b, w);
      BeforeExplained(s, t, SweepFrom(t, i + 1), b, w);
    }
  }

  lemma {:induction false} PortsElsewhere(s: Ap, c: nat, b: nat, w: nat)
    requires Shape(s) && c <= |s.bss| && b < |s.bss| && w < MAX_LEN_OF_MAC_TABLE
    ensures Untouched(s, PortsFrom(s, c), b, w)
    decreases |s.bss| - c
  {
    if c < |s.bss| {
      PortsElsewhere(SetBss(s, c, s.bss[c].(portSecured := AnyPortSecured(s, c))), c + 1, b, w);
    }
  }

  lemma {:induction false} BcmcElsewhere(s: Ap, c: nat, b: nat, w: nat)
    requires Shape(s) && c <= |s.bss| && b < |s.bss| && 1 <= w < MAX_LEN_OF_MAC_TABLE
    ensures Untouched(s, BcmcClearFrom(s, c), b, w)
    decreases |s.bss| - c
  {
    if c < |s.bss| {
      BcmcElsewhere(TimClear(s, c, 0), c + 1, b, w);
    }
  }

  lemma CollectMcastElsewhere(s: Ap, b: nat, w: nat)
    requires Shape(s) && b < |s.bss| && 1 <= w < MAX_LEN_OF_MAC_TABLE
    ensures Untouched(s, CollectMcast(s), b, w)
  {
    hide BcmcClearFrom;
    BcmcElsewhere(Release(s, s.mcastPsQueue).(mcastPsQueue := [], mcastPsQIdleCount := 0), 0, b, w);
  }

  lemma SweepExplained(s: Ap, b: nat, w: nat)
    requires Shape(s) && b < |s.bss| && 1 <= w < MAX_LEN_OF_MAC_TABLE
    ensures Explained(s, Sweep(s), b, w, Probed(s, b, w))
  {
    hide SweepFrom, PortsFrom, CollectMcast, Untouched, Explained, Probed;
    var s0 := s.(fAnyStationInPsm := false, fAllStationAsRalink := true);
    FieldsElsewhere(s, s0, w, s.entries[w], b, w);
    SweepFromExplained(s0, 1, b, w);
    var s1 := SweepFrom(s0, 1);
    ExplainedBss(s0, s1, b, w, Probed(s0, b, w));
    BeforeExplained(s, s0, s1, b, w);
    PortsElsewhere(s1, 0, b, w);
    var s2 := PortsFrom(s1, 0);
    UntouchedBss(s1, s2, b, w);
    AfterExplained(s, s1, s2, b, w, Probed(s, b, w));
    CollectMcastElsewhere(s2, b, w);
    AfterExplained(s, s2, CollectMcast(s2), b, w, Probed(s, b, w));
  }

  lemma DtimStale(s: Ap, b: nat, w: nat)
    requires Shape(s) && b < |s.bss| && 1 <= w < MAX_LEN_OF_MAC_TABLE
    ensures NoneStale(s, Dtim(s), b, w)
  {
    hide DtimLoop, BcmcClearFrom;
    DtimLoopMoves(s, 0);
    BcmcElsewhere(DtimLoop(s, 0), 0, b, w);
  }

  lemma PlainStale(s: Ap, t: Ap, b: nat, w: nat)
    requires Shape(s) && Shape(t) && b < |s.bss| && w < MAX_LEN_OF_MAC_TABLE && t.bss == s.bss
    requires t.entries[w].apidx == s.entries[w].apidx && t.entries[w].psQueue == s.entries[w].psQueue
    ensures NoneStale(s, t, b, w)
  {
  }

  // ---------- steps and runs ----------

  lemma ToExplained(s: Ap, t: Ap, b: nat, w: nat, probed: bool)
    requires NoneStale(s, t, b, w) || Fades(s, t, b, w)
    ensures Explained(s, t, b, w, probed)
  {
  }

  predicate ProbedBy(s: Ap, e: Event, b: nat, w: nat)
    requires Shape(s) && b < |s.bss| && 1 <= w < MAX_LEN_OF_MAC_TABLE
  {
    e.EvSweep? && Probed(s, b, w)
  }

  lemma StepExplained(s: Ap, e: Event, b: nat, w: nat)
    requires Enabled(s, e) && Buffered(s) && b < |s.bss| && 1 <= w < MAX_LEN_OF_MAC_TABLE
    ensures Explained(s, Step(s, e), b, w, ProbedBy(s, e, b, w))
  {
    hide Send, HandlePsPoll, PsIndicate, ClassFilterPasses, RxAuth, AssocReq, Delete, UpdateAcl, Sweep, Dtim,
         NoneStale, Fades, Explained, Probed, Buffered;
    SetEntryStale(s, 0, s.entries[0], b, w);
    match e {
    case EvSend(r) => SendStale(s, r, b, w);
    case EvPsPoll(aid, a) => if aid < MAX_LEN_OF_MAC_TABLE { HandlePsPollStale(s, a, aid, false, b, w); }
    case EvRxData(v, a, psm) => PsIndicateStale(s, a, v, psm, b, w); DeleteFades(s, v, a, b, w);
    case EvRxAction(v, a, psm) => PsIndicateStale(s, a, v, psm, b, w);
    case EvAuth(f, nonce) => AuthFades(s, f, nonce, b, w);
    case EvAssoc(f) => AssocStale(s, f, b, w);
    case EvDeauth(v, a) => DeleteFades(s, v, a, b, w);
    case EvDisassoc(v, a) => DeleteFades(s, v, a, b, w);
    case EvKickOut(a) => DeleteFades(s, Lookup(s, a), a, b, w);
    case EvPolicy(c, policy) => AclFades(s, c, s.bss[c].(policy := policy), b, w);
    case EvAclAdd(c, addrs) => AclFades(s, c, s.bss[c].(acl := AclList.Add(s.bss[c].acl, addrs)), b, w);
    case EvAclDel(c, addrs) => AclFades(s, c, s.bss[c].(acl := AclList.Del(s.bss[c].acl, addrs)), b, w);
    case EvAclClear(c) => AclFades(s, c, s.bss[c].(acl := []), b, w);
    case EvSweep => SweepExplained(s, b, w);
    case EvDtim => DtimStale(s, b, w);
    case EvDequeue(q, ok) => PlainStale(s, Dequeue(s, q, ok), b, w);
    case EvTxStatus(v, ok) => PlainStale(s, TxStatus(s, v, ok), b, w);
    }
    if !e.EvSweep? {
      ToExplained(s, Step(s, e), b, w, ProbedBy(s, e, b, w));
    } else {
      assert ProbedBy(s, e, b, w) == Probed(s, b, w);
    }
  }

  lemma ExplainedUnfold(s: Ap, t: Ap, b: nat, w: nat, probed: bool)
    requires Explained(s, t, b, w, probed)
    ensures Shape(t) && |t.bss| == |s.bss| && (Stale(t, b, w) ==> Stale(s, b, w) || probed || Evicted(s, t, b, w))
  {
  }

  // Event `k` of the run made the mark of `w` in BSS `b` stale: the sweep probed the station, or the event deleted it with
  // its packets.
  predicate MadeStale(s: Ap, es: seq<Event>, k: nat, b: nat, w: nat)
    requires Run(s, es) && k < |es| && b < |At(s, es, k).bss| && 1 <= w < MAX_LEN_OF_MAC_TABLE
  {
    ProbedBy(At(s, es, k), es[k], b, w) || Evicted(At(s, es, k), At(s, es, k + 1), b, w)
  }

  // The mark has been stale ever since event `k`.
  predicate StaleSince(s: Ap, es: seq<Event>, k: nat, n: nat, b: nat, w: nat)
    requires Run(s, es) && k < n <= |es| && 1 <= w < MAX_LEN_OF_MAC_TABLE
  {
    && b < |At(s, es, k).bss| && MadeStale(s, es, k, b, w)
    && forall j :: k < j <= n ==> b < |At(s, es, j).bss| && Stale(At(s, es, j), b, w)
  }

  lemma AtBuffered(s: Ap, es: seq<Event>, k: nat)
    requires Init(s) && Run(s, es) && k <= |es|
    ensures Buffered(At(s, es, k)) && |At(s, es, k).bss| == |s.bss|
  {
    RunPrefix(s, es, k);
    assert Buffered(s);
    RunBuffered(s, es[..k]);
    ModesConstant(s, es, k);
  }

  lemma NoneAtFirst(s: Ap, es: seq<Event>, b: nat, w: nat)
    requires Init(s) && Run(s, es) && b < |s.bss| && w < MAX_LEN_OF_MAC_TABLE
    ensures At(s, es, 0) == s && !Stale(s, b, w)
  {
    assert es[..0] == [];
  }

  lemma LongerSince(s: Ap, es: seq<Event>, k: nat, n: nat, b: nat, w: nat)
    requires Run(s, es) && 0 <= k < n - 1 < n <= |es| && 1 <= w < MAX_LEN_OF_MAC_TABLE && StaleSince(s, es, k, n - 1, b, w)
    requires b < |At(s, es, n).bss| && Stale(At(s, es, n), b, w)
    ensures StaleSince(s, es, k, n, b, w)
  {
    hide At, Stale, MadeStale, Run;
  }

  lemma LastStep(s: Ap, es: seq<Event>, n: nat, b: nat, w: nat)
    requires Init(s) && Run(s, es) && 1 <= n <= |es| && b < |s.bss| && 1 <= w < MAX_LEN_OF_MAC_TABLE
    requires b < |At(s, es, n).bss| && Stale(At(s, es, n), b, w)
    ensures b < |At(s, es, n - 1).bss|
    ensures Stale(At(s, es, n - 1), b, w) || StaleSince(s, es, n - 1, n, b, w)
  {
    hide At, Stale, ProbedBy, Evicted, Explained, Init, Run, Buffered, Step, Enabled;
    var s', t := At(s, es, n - 1), At(s, es, n);
    AtBuffered(s, es, n - 1);
    AtStep(s, es, n - 1);
    StepExplained(s', es[n - 1], b, w);
    ExplainedUnfold(s', t, b, w, ProbedBy(s', es[n - 1], b, w));
  }

  /** In every reachable state, a bitmap marks a station without buffered packets only because, at some earlier event, the
      keep-alive probed a sleeping station in that slot or a station in that slot was deleted together with its packets; and
      the mark has been stale ever since. */
  lemma {:induction false} StaleExplained(s: Ap, es: seq<Event>, n: nat, b: nat, w: nat)
    requires Init(s) && Run(s, es) && n <= |es| && b < |s.bss| && 1 <= w < MAX_LEN_OF_MAC_TABLE
    requires b < |At(s, es, n).bss| && Stale(At(s, es, n), b, w)
    ensures exists k :: 0 <= k < n && StaleSince(s, es, k, n, b, w)
  {
    hide At, Stale, MadeStale, StaleSince, Init, Run;
    NoneAtFirst(s, es, b, w);
    if n > 0 {
      AtBuffered(s, es, n - 1);
      LastStep(s, es, n, b, w);
      if Stale(At(s, es, n - 1), b, w) {
        StaleExplained(s, es, n - 1, b, w);
        var k :| 0 <= k < n - 1 && StaleSince(s, es, k, n - 1, b, w);
        LongerSince(s, es, k, n, b, w);
      } else {
        assert StaleSince(s, es, n - 1, n, b, w);
      }
    }
  }

  // The station's own turn.
  lemma ProbeMarksSlot(s: Ap, w: nat)
    requires Shape(s) && 1 <= w < MAX_LEN_OF_MAC_TABLE && s.entries[w].psQueue == [] && Probed(s, s.entries[w].apidx, w)
    ensures var t := SweepEntry(s, w); |t.bss| == |s.bss| && Stale(t, s.entries[w].apidx, w)
  {
    hide KeepAlive, DeleteSlot, CollectPsQueue, AgedOut, TimBit, TimClear;
    var b := s.entries[w].apidx;
    HalfMarks(s, b, w);
    var t := Half(s, w);
    DeleteSlotMark(t, b, w);
  }

  lemma DeleteSlotMark(t: Ap, b: nat, w: nat)
    requires Shape(t) && b < |t.bss| && w < MAX_LEN_OF_MAC_TABLE && t.entries[w].psQueue == []
    ensures var u := DeleteSlot(t, w); |u.bss| == |t.bss| && u.entries[w].psQueue == [] && (TimMarked(u, b, w) <==> TimMarked(t, b, w))
    ensures var u := CollectPsQueue(t, w);
            |u.bss| == |t.bss| && u.entries[w].psQueue == [] && (TimMarked(u, b, w) <==> TimMarked(t, b, w))
  {
    hide TimBit;
  }

  lemma StaleUntouched(s: Ap, t: Ap, b: nat, w: nat)
    requires Untouched(s, t, b, w)
    ensures Stale(t, b, w) == Stale(s, b, w) && t.entries[w] == s.entries[w]
    ensures 1 <= w ==> Probed(t, b, w) == Probed(s, b, w)
  {
  }

  lemma {:induction false} ProbeMarksFrom(s: Ap, i: nat, w: nat)
    requires Shape(s) && i <= w < MAX_LEN_OF_MAC_TABLE && 1 <= w && s.entries[w].psQueue == [] && Probed(s, s.entries[w].apidx, w)
    ensures var t := SweepFrom(s, i); |t.bss| == |s.bss| && Stale(t, s.entries[w].apidx, w)
    decreases MAX_LEN_OF_MAC_TABLE - i
  {
    hide SweepEntry, Untouched, Probed, Stale;
    var b := s.entries[w].apidx;
    var t := SweepEntry(s, i);
    if i == w {
      ProbeMarksSlot(s, w);
      SweepFromElsewhere(t, i + 1, b, w);
      UntouchedBss(t, SweepFrom(t, i + 1), b, w);
      StaleUntouched(t, SweepFrom(t, i + 1), b, w);
    } else {
      SweepElsewhere(s, i, b, w);
      UntouchedBss(s, t, b, w);
      StaleUntouched(s, t, b, w);
      ProbeMarksFrom(t, i + 1, w);
    }
  }

  lemma SweepMarks(s: Ap, w: nat)
    requires Shape(s) && 1 <= w < MAX_LEN_OF_MAC_TABLE && s.entries[w].psQueue == [] && Probed(s, s.entries[w].apidx, w)
    ensures |Sweep(s).bss| == |s.bss| && Stale(Sweep(s), s.entries[w].apidx, w)
  {
    hide SweepFrom, PortsFrom, CollectMcast, Untouched, Probed, Stale;
    var b := s.entries[w].apidx;
    var s0 := s.(fAnyStationInPsm := false, fAllStationAsRalink := true);
    FieldsElsewhere(s, s0, w, s.entries[w], b, w);
    StaleUntouched(s, s0, b, w);
    ProbeMarksFrom(s0, 1, w);
    var s1 := SweepFrom(s0, 1);
    PortsElsewhere(s1, 0, b, w);
    var s2 := PortsFrom(s1, 0);
    UntouchedBss(s1, s2, b, w);
    StaleUntouched(s1, s2, b, w);
    CollectMcastElsewhere(s2, b, w);
    UntouchedBss(s2, CollectMcast(s2), b, w);
    StaleUntouched(s2, CollectMcast(s2), b, w);
  }

  /** Both causes are real.  Whenever in a reachable state the sweep probes a station whose queue is empty, its mark is stale
      afterwards, whatever else the sweep does; and deleting a station with packets always leaves its mark. */
  lemma ProbeMarks(s0: Ap, es: seq<Event>, w: nat)
    requires Init(s0) && Run(s0, es) && 1 <= w < MAX_LEN_OF_MAC_TABLE
    requires var s := Exec(s0, es); s.entries[w].psQueue == [] && Probed(s, s.entries[w].apidx, w)
    ensures Run(s0, es + [EvSweep])
    ensures var s := Exec(s0, es); var t := Exec(s0, es + [EvSweep]);
            |t.bss| == |s.bss| && Stale(t, s.entries[w].apidx, w)
  {
    hide Sweep, Stale, Probed, Init;
    SweepMarks(Exec(s0, es), w);
    ExecSnoc(s0, es, EvSweep);
  }

  lemma {:induction false} ExecSnoc(s: Ap, es: seq<Event>, e: Event)
    requires Run(s, es) && Enabled(Exec(s, es), e)
    ensures Run(s, es + [e]) && Exec(s, es + [e]) == Step(Exec(s, es), e)
    decreases es
  {
    hide Step, Enabled;
    if es == [] {
      assert [e][1..] == [] && [] + [e] == [e];
    } else {
      assert (es + [e])[1..] == es[1..] + [e];
      ExecSnoc(Step(s, es[0]), es[1..], e);
    }
  }

  lemma DeletionLeavesMark(s: Ap, w: nat)
    requires Buffered(s) && w < MAX_LEN_OF_MAC_TABLE && s.entries[w].psQueue != []
    ensures Stale(DeleteSlot(s, w), s.entries[w].apidx, w)
  {
    assert SlotOk(s, w);
  }
}
