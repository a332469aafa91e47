/** Buffering for sleeping stations: in every reachable state the traffic indication map agrees with the
    power-save queues, the queues are bounded, and the station of a free slot has no packets. */
module PowerSave {
  import opened Types
  import opened MacTable
  import opened Steps

  // What holds of slot `i`: only stations have queues, a queue is bounded and holds packets for the
  // station, and a station with a non-empty queue has its AID bit set in its BSS.
  predicate SlotOk(s: Ap, i: nat)
    requires Shape(s) && i < MAX_LEN_OF_MAC_TABLE
  {
    var e := s.entries[i];
    && (IsClient(e) ==> i >= 1)
    && (!IsClient(e) ==> e.psQueue == [])
    && |e.psQueue| <= MAX_PACKETS_IN_PS_QUEUE
    && (e.psQueue != [] ==> TimMarked(s, e.apidx, i))
    && (forall k :: 0 <= k < |e.psQueue| ==> e.psQueue[k].dest == i)
  }

  predicate Buffered(s: Ap) {
    && Shape(s)
    && (forall i :: 0 <= i < MAX_LEN_OF_MAC_TABLE ==> SlotOk(s, i))
    && |s.mcastPsQueue| <= MAX_PACKETS_IN_MCAST_PS_QUEUE
    && (forall k :: 0 <= k < |s.mcastPsQueue| ==> s.mcastPsQueue[k].dest == MCAST_WCID)
  }

  // `t` differs from `s` at most in slot `w`, in the TIM bit of `w`, in counters and in transmit queues.
  predicate OnlySlot(s: Ap, t: Ap, w: nat) {
    && Shape(s) && Shape(t) && |t.bss| == |s.bss| && t.mcastPsQueue == s.mcastPsQueue
    && (forall i :: 0 <= i < MAX_LEN_OF_MAC_TABLE && i != w ==> t.entries[i] == s.entries[i])
    && (forall b, i :: 0 <= b < |s.bss| && 0 <= i < MAX_LEN_OF_MAC_TABLE && i != w ==> TimMarked(t, b, i) == TimMarked(s, b, i))
  }

  lemma OneSlot(s: Ap, t: Ap, w: nat)
    requires Buffered(s) && OnlySlot(s, t, w)
    requires w < MAX_LEN_OF_MAC_TABLE ==> SlotOk(t, w)
    ensures Buffered(t)
  {
    forall i | 0 <= i < MAX_LEN_OF_MAC_TABLE
      ensures SlotOk(t, i)
    {
      if i != w {
        assert SlotOk(s, i);
      }
    }
  }

  lemma DeleteBuffered(s: Ap, w: nat, addr: Mac)
    requires Buffered(s)
    ensures Buffered(Delete(s, w, addr)) && OnlySlot(s, Delete(s, w, addr), w)
    ensures forall i :: 0 <= i < MAX_LEN_OF_MAC_TABLE ==> Delete(s, w, addr).entries[i].apidx == s.entries[i].apidx
  {
    OneSlot(s, Delete(s, w, addr), w);
  }

  lemma InsertBuffered(s: Ap, addr: Mac, b: nat)
    requires Buffered(s) && b < |s.bss|
    ensures Buffered(Insert(s, addr, b).0)
  {
    OneSlot(s, Insert(s, addr, b).0, VacancyFrom(s.entries, 1));
  }

  // Fields other than the queue, the kind and the BSS do not matter.
  lemma SetEntryBuffered(s: Ap, w: nat, e: Entry)
    requires Buffered(s) && w < MAX_LEN_OF_MAC_TABLE
    requires var o := s.entries[w]; e.kind == o.kind && e.apidx == o.apidx && e.psQueue == o.psQueue
    ensures Buffered(SetEntry(s, w, e)) && OnlySlot(s, SetEntry(s, w, e), w)
  {
    assert SlotOk(s, w);
    OneSlot(s, SetEntry(s, w, e), w);
  }

  lemma McastAdded(s: Ap, p: Packet, b: nat)
    requires Buffered(s) && b < |s.bss| && p.dest == MCAST_WCID
    ensures |s.mcastPsQueue| < MAX_PACKETS_IN_MCAST_PS_QUEUE ==> Buffered(TimSet(s.(mcastPsQueue := [p] + s.mcastPsQueue), b, 0))
  {
    hide TimBit;
    var t := TimSet(s.(mcastPsQueue := [p] + s.mcastPsQueue), b, 0);
    forall i | 0 <= i < MAX_LEN_OF_MAC_TABLE
      ensures SlotOk(t, i)
    {
      assert SlotOk(s, i);
    }
  }

  lemma InsertPsBuffered(s: Ap, p: Packet, w: nat)
    requires Buffered(s) && w < MAX_LEN_OF_MAC_TABLE && p.dest == w
    ensures IsClient(s.entries[w]) ==> Buffered(InsertPsQueue(s, p, w))
  {
    hide TimBit;
    assert SlotOk(s, w);
    if IsClient(s.entries[w]) {
      OneSlot(s, InsertPsQueue(s, p, w), w);
    }
  }

  lemma DeliverBuffered(s: Ap, r: SendReq, p: Packet)
    requires Buffered(s) && ReqOk(r) && (r.group ==> r.wcid == MCAST_WCID) && p.dest == r.wcid
    ensures Buffered(Deliver(s, r, p))
  {
    hide TimBit, InsertPsQueue, SlotOk;
    InsertPsBuffered(s, p, r.wcid);
    if r.group && s.fAnyStationInPsm {
      McastAdded(s, p, BssOf(s, r));
      OneSlot(s, Release(s, [p]), MAX_LEN_OF_MAC_TABLE);
    } else {
      OneSlot(s, Release(s, [p]), MAX_LEN_OF_MAC_TABLE);
      OneSlot(s, EnqueueTx(s, r.qid, [p]), MAX_LEN_OF_MAC_TABLE);
      if Sleeping(s.entries[r.wcid]) {
        assert IsClient(s.entries[r.wcid]);
      }
    }
  }

  lemma SendBuffered(s: Ap, r: SendReq)
    requires Buffered(s) && ReqOk(r) && (r.group ==> r.wcid == MCAST_WCID)
    ensures Buffered(Send(s, r))
  {
    hide TimBitSet, TimBit, Refused, Deliver;
    var s1 := Given(s, PacketOf(s, r));
    OneSlot(s, s1, MAX_LEN_OF_MAC_TABLE);
    OneSlot(s, Release(s1, [PacketOf(s, r)]), MAX_LEN_OF_MAC_TABLE);
    DeliverBuffered(s1, r, PacketOf(s, r));
  }

  lemma ReleaseBuffered(s: Ap, w: nat)
    requires Buffered(s) && w < MAX_LEN_OF_MAC_TABLE
    ensures Buffered(ReleaseOne(s, w)) && Buffered(ReleaseAll(s, w))
  {
    assert SlotOk(s, w);
    OneSlot(s, ReleaseOne(s, w), w);
    OneSlot(s, ReleaseAll(s, w), w);
  }

  lemma ClearIfEmptyBuffered(s: Ap, w: nat)
    requires Buffered(s) && w < MAX_LEN_OF_MAC_TABLE
    ensures Buffered(ClearIfEmpty(s, w))
  {
    assert SlotOk(s, w);
    OneSlot(s, ClearIfEmpty(s, w), w);
  }

  lemma HandlePsPollBuffered(s: Ap, addr: Mac, aid: nat, isActive: bool)
    requires Buffered(s) && aid < MAX_LEN_OF_MAC_TABLE
    ensures Buffered(HandlePsPoll(s, addr, aid, isActive))
  {
    var s1 := SetEntry(s, aid, s.entries[aid].(continueTxFailCnt := 0));
    SetEntryBuffered(s, aid, s.entries[aid].(continueTxFailCnt := 0));
    ReleaseBuffered(s1, aid);
    ClearIfEmptyBuffered(if isActive then ReleaseAll(s1, aid) else ReleaseOne(s1, aid), aid);
  }

  lemma PsIndicateBuffered(s: Ap, addr: Mac, wcid: nat, psm: PsMode)
    requires Buffered(s)
    ensures Buffered(PsIndicate(s, addr, wcid, psm))
  {
    if wcid < MAX_LEN_OF_MAC_TABLE {
      var e := s.entries[wcid].(noDataIdleCount := 0, psMode := psm);
      SetEntryBuffered(s, wcid, e);
      HandlePsPollBuffered(SetEntry(s, wcid, e), addr, wcid, true);
    }
  }

  lemma {:induction false} UpdateAclBuffered(s: Ap, b: nat, i: nat)
    requires Buffered(s) && b < |s.bss| && i <= MAX_LEN_OF_MAC_TABLE
    ensures Buffered(UpdateAclFrom(s, b, i))
    decreases MAX_LEN_OF_MAC_TABLE - i
  {
    if i < MAX_LEN_OF_MAC_TABLE {
      DeleteBuffered(s, i, s.entries[i].addr);
      UpdateAclBuffered(Delete(s, i, s.entries[i].addr), b, i + 1);
      UpdateAclBuffered(s, b, i + 1);
    }
  }

  lemma CollectBuffered(s: Ap, i: nat)
    requires Buffered(s) && i < MAX_LEN_OF_MAC_TABLE
    ensures Buffered(CollectPsQueue(s, i))
  {
    hide TimBitClear, TimBit;
    assert SlotOk(s, i);
    OneSlot(s, CollectPsQueue(s, i), i);
  }

  lemma KeepAliveBuffered(s: Ap, i: nat)
    requires Buffered(s) && i < MAX_LEN_OF_MAC_TABLE
    ensures Buffered(KeepAlive(s, i))
  {
    hide TimBitSet, TimBit;
    assert SlotOk(s, i);
    OneSlot(s, KeepAlive(s, i), i);
  }

  lemma SweepEntryBuffered(s: Ap, i: nat)
    requires Buffered(s) && i < MAX_LEN_OF_MAC_TABLE
    ensures Buffered(SweepEntry(s, i))
  {
    hide KeepAlive, Delete, CollectPsQueue, AgedOut, SlotOk;
    var e := Tick(s.entries[i]);
    SetEntryBuffered(s, i, e);
    var s1 := SetEntry(s, i, e);
    DeleteBuffered(s1, i, e.addr);
    var s1' := if e.psMode == PwrSave then s1.(fAnyStationInPsm := true) else s1;
    OneSlot(s1, s1', MAX_LEN_OF_MAC_TABLE);
    KeepAliveBuffered(s1', i);
    var s2 := KeepAlive(s1', i);
    DeleteBuffered(s2, i, s2.entries[i].addr);
    CollectBuffered(s2, i);
    var s3 := CollectPsQueue(s2, i);
    OneSlot(s3, s3.(fAllStationAsRalink := false), MAX_LEN_OF_MAC_TABLE);
  }

  lemma {:induction false} SweepFromBuffered(s: Ap, i: nat)
    requires Buffered(s) && i <= MAX_LEN_OF_MAC_TABLE
    ensures Buffered(SweepFrom(s, i))
    decreases MAX_LEN_OF_MAC_TABLE - i
  {
    if i < MAX_LEN_OF_MAC_TABLE {
      SweepEntryBuffered(s, i);
      SweepFromBuffered(SweepEntry(s, i), i + 1);
    }
  }

  // Flags, counters and the transmit queues do not matter, nor do the configuration of a BSS and its bit 0.
  lemma ConfigBuffered(s: Ap, t: Ap)
    requires Buffered(s) && Shape(t) && t.entries == s.entries && t.mcastPsQueue == s.mcastPsQueue && |t.bss| == |s.bss|
    requires forall b, i :: 0 <= b < |s.bss| && 1 <= i < MAX_LEN_OF_MAC_TABLE ==> TimMarked(t, b, i) == TimMarked(s, b, i)
    ensures Buffered(t)
  {
    forall i | 0 <= i < MAX_LEN_OF_MAC_TABLE
      ensures SlotOk(t, i)
    {
      assert SlotOk(s, i);
    }
  }

  lemma {:induction false} PortsBuffered(s: Ap, b: nat)
    requires Buffered(s) && b <= |s.bss|
    ensures Buffered(PortsFrom(s, b))
    decreases |s.bss| - b
  {
    if b < |s.bss| {
      var t := SetBss(s, b, s.bss[b].(portSecured := AnyPortSecured(s, b)));
      ConfigBuffered(s, t);
      PortsBuffered(t, b + 1);
    }
  }

  lemma {:induction false} BcmcClearBuffered(s: Ap, b: nat)
    requires Buffered(s) && b <= |s.bss|
    ensures Buffered(BcmcClearFrom(s, b))
    decreases |s.bss| - b
  {
    if b < |s.bss| {
      ConfigBuffered(s, TimClear(s, b, 0));
      BcmcClearBuffered(TimClear(s, b, 0), b + 1);
    }
  }

  // Shortening the multicast queue from the front keeps the rest in order.
  lemma McastBuffered(s: Ap, t: Ap)
    requires Buffered(s) && Shape(t) && t.entries == s.entries && t.bss == s.bss
    requires t.mcastPsQueue == [] || (s.mcastPsQueue != [] && t.mcastPsQueue == s.mcastPsQueue[1..])
    ensures Buffered(t)
  {
    forall i | 0 <= i < MAX_LEN_OF_MAC_TABLE
      ensures SlotOk(t, i)
    {
      assert SlotOk(s, i);
    }
  }

  lemma SweepBuffered(s: Ap)
    requires Buffered(s)
    ensures Buffered(Sweep(s))
  {
    var s0 := s.(fAnyStationInPsm := false, fAllStationAsRalink := true);
    ConfigBuffered(s, s0);
    SweepFromBuffered(s0, 1);
    var s1 := SweepFrom(s0, 1);
    PortsBuffered(s1, 0);
    CollectMcastBuffered(PortsFrom(s1, 0));
  }

  lemma CollectMcastBuffered(s: Ap)
    requires Buffered(s)
    ensures Buffered(CollectMcast(s))
  {
    ConfigBuffered(s, s.(mcastPsQIdleCount := 0));
    ConfigBuffered(s, s.(mcastPsQIdleCount := s.mcastPsQIdleCount + 1));
    var t := Release(s, s.mcastPsQueue).(mcastPsQueue := [], mcastPsQIdleCount := 0);
    McastBuffered(s, t);
    BcmcClearBuffered(t, 0);
  }

  lemma {:induction false} DtimLoopBuffered(s: Ap, count: nat)
    requires Buffered(s)
    ensures Buffered(DtimLoop(s, count))
    decreases |s.mcastPsQueue|
  {
    if s.mcastPsQueue != [] {
      var p := s.mcastPsQueue[0];
      var s1 := s.(mcastPsQueue := s.mcastPsQueue[1..],
                   more := if count > 0 then s.more + {p} else s.more,
                   txSwQueue := s.txSwQueue[QID_AC_BE := [p] + s.txSwQueue[QID_AC_BE]]);
      McastBuffered(s, s1);
      DtimLoopBuffered(s1, count + 1);
    }
  }

  lemma DtimBuffered(s: Ap)
    requires Buffered(s)
    ensures Buffered(Dtim(s))
  {
    DtimLoopBuffered(s, 0);
    var s1 := DtimLoop(s, 0);
    BcmcClearBuffered(s1, 0);
    ConfigBuffered(s1, s1.(mcastPsQIdleCount := 0));
    var s2 := BcmcClearFrom(s1, 0);
    ConfigBuffered(s2, s2.(mcastPsQIdleCount := 0));
  }

  lemma SetSstBuffered(s: Ap, w: nat, sst: Sst)
    requires Buffered(s) && w < MAX_LEN_OF_MAC_TABLE
    ensures Buffered(SetSst(s, w, sst))
  {
    SetEntryBuffered(s, w, s.entries[w].(sst := sst));
  }

  lemma RehomeBuffered(s: Ap, w: nat, addr1: Mac)
    requires Buffered(s) && w <= |s.entries|
    ensures Buffered(Rehome(s, w, addr1).0)
  {
    if w < |s.entries| {
      DeleteBuffered(s, w, s.entries[w].addr);
    }
  }

  lemma DeleteSlotBuffered(s: Ap, w: nat)
    requires Buffered(s)
    ensures Buffered(DeleteSlot(s, w))
  {
    if w < |s.entries| {
      DeleteBuffered(s, w, s.entries[w].addr);
    }
  }

  lemma AuthReqAtBuffered(s: Ap, w: nat, b: nat, f: AuthFrame, nonce: Challenge)
    requires Buffered(s) && w <= |s.entries| && b < |s.bss|
    ensures Buffered(AuthReqAt(s, w, b, f, nonce))
  {
    DeleteSlotBuffered(s, w);
    InsertBuffered(s, f.addr2, b);
    var (s1, v) := Ensure(s, w, f.addr2, b);
    if v < |s1.entries| {
      SetSstBuffered(s1, v, Auth);
      SetSstBuffered(s1, v, NotAuth);
      var s2 := SetSst(s1, v, NotAuth);
      ConfigBuffered(s2, s2.(auxAddr := f.addr2, auxChallenge := nonce));
    }
  }

  lemma AuthReqBuffered(s: Ap, f: AuthFrame, nonce: Challenge)
    requires Buffered(s)
    ensures Buffered(AuthReq(s, f, nonce))
  {
    var b := FindBss(s.bss, f.addr1);
    if b < |s.bss| && f.devUp {
      RehomeBuffered(s, Lookup(s, f.addr2), f.addr1);
      var (s1, w) := Rehome(s, Lookup(s, f.addr2), f.addr1);
      AuthReqAtBuffered(s1, w, b, f, nonce);
    }
  }

  lemma AuthConfirmBuffered(s: Ap, f: AuthFrame)
    requires Buffered(s)
    ensures Buffered(AuthConfirm(s, f))
  {
    if f.wcid < MAX_LEN_OF_MAC_TABLE {
      RehomeBuffered(s, f.wcid, f.addr1);
      var (s1, w) := Rehome(s, f.wcid, f.addr1);
      DeleteSlotBuffered(s1, w);
      if w < |s1.entries| {
        SetSstBuffered(s1, w, Auth);
      }
    }
  }

  lemma AssocBuffered(s: Ap, f: AssocFrame)
    requires Buffered(s)
    ensures Buffered(AssocReq(s, f))
  {
    var w := Lookup(s, f.addr2);
    if w < |s.entries| {
      var s1 := BuildAssociation(s, w, f);
      SetEntryBuffered(s, w, s1.entries[w]);
      SetEntryBuffered(s1, w, s1.entries[w].(psMode := PwrActive));
    }
  }

  lemma AclBuffered(s: Ap, b: nat, x: Bss)
    requires Buffered(s) && b < |s.bss| && x.timBitmaps == s.bss[b].timBitmaps
    ensures Buffered(UpdateAcl(SetBss(s, b, x), b))
  {
    ConfigBuffered(s, SetBss(s, b, x));
    UpdateAclBuffered(SetBss(s, b, x), b, 0);
  }

  lemma StepBuffered(s: Ap, e: Event)
    requires Enabled(s, e) && Buffered(s)
    ensures Buffered(Step(s, e))
  {
    hide Send, HandlePsPoll, PsIndicate, AuthReq, AuthConfirm, AssocReq, Delete, UpdateAcl, Sweep, Dtim, SlotOk,
         ClassFilterPasses, Lookup;
    match e
    case EvSend(r) => SendBuffered(s, r);
    case EvPsPoll(aid, a) => if aid < MAX_LEN_OF_MAC_TABLE { HandlePsPollBuffered(s, a, aid, false); }
    case EvRxData(w, a, psm) => PsIndicateBuffered(s, a, w, psm); DeleteBuffered(s, w, a);
    case EvRxAction(w, a, psm) => PsIndicateBuffered(s, a, w, psm);
    case EvAuth(f, nonce) => AuthReqBuffered(s, f, nonce); AuthConfirmBuffered(s, f);
    case EvAssoc(f) => AssocBuffered(s, f);
    case EvDeauth(w, a) => DeleteBuffered(s, w, a);
    case EvDisassoc(w, a) => DeleteBuffered(s, w, a);
    case EvKickOut(a) => DeleteBuffered(s, Lookup(s, a), a);
    case EvPolicy(b, policy) => AclBuffered(s, b, s.bss[b].(policy := policy));
    case EvAclAdd(b, addrs) => AclBuffered(s, b, s.bss[b].(acl := AclList.Add(s.bss[b].acl, addrs)));
    case EvAclDel(b, addrs) => AclBuffered(s, b, s.bss[b].(acl := AclList.Del(s.bss[b].acl, addrs)));
    case EvAclClear(b) => AclBuffered(s, b, s.bss[b].(acl := []));
    case EvSweep => SweepBuffered(s);
    case EvDtim => DtimBuffered(s);
    case EvDequeue(q, ok) => ConfigBuffered(s, Dequeue(s, q, ok));
    case EvTxStatus(w, ok) => if w < MAX_LEN_OF_MAC_TABLE { SetEntryBuffered(s, w, TxStatus(s, w, ok).entries[w]); }
  }

  lemma {:induction false} RunBuffered(s: Ap, es: seq<Event>)
    requires Run(s, es) && Buffered(s)
    ensures Buffered(Exec(s, es))
    decreases es
  {
    if es != [] {
      StepBuffered(s, es[0]);
      RunBuffered(Step(s, es[0]), es[1..]);
    }
  }

  /** TIM agreement: in every reachable state a station with buffered packets has its AID bit set in the
      bitmap of its BSS, and no queue is longer than its limit. */
  lemma TimAgreement(s: Ap, es: seq<Event>, i: nat)
    requires Init(s) && Run(s, es) && i < MAX_LEN_OF_MAC_TABLE
    ensures var t := Exec(s, es); var e := t.entries[i];
            && (e.psQueue != [] ==> IsClient(e) && i >= 1 && TimMarked(t, e.apidx, i))
            && |e.psQueue| <= MAX_PACKETS_IN_PS_QUEUE
            && |t.mcastPsQueue| <= MAX_PACKETS_IN_MCAST_PS_QUEUE
  {
    assert Buffered(s);
    RunBuffered(s, es);
    assert SlotOk(Exec(s, es), i);
  }
}
