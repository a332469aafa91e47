/** No packet is lost, duplicated or invented: over every run each packet given to APSendPacket is in
    exactly one place. */
module Conservation {
  import opened Types
  import opened MacTable
  import opened Steps
  import opened PowerSave

  function Count(q: seq<Packet>, p: Packet): nat {
    multiset(q)[p]
  }

  // Occurrences in the power-save queues of the first `n` slots.
  function PsCount(entries: seq<Entry>, n: nat, p: Packet): nat
    requires n <= |entries|
  {
    if n == 0 then 0 else PsCount(entries, n - 1, p) + Count(entries[n - 1].psQueue, p)
  }

  function TxCount(queues: seq<seq<Packet>>, n: nat, p: Packet): nat
    requires n <= |queues|
  {
    if n == 0 then 0 else TxCount(queues, n - 1, p) + Count(queues[n - 1], p)
  }

  // Occurrences in the places a packet does not come back from.
  function Done(s: Ap, p: Packet): nat {
    TxCount(s.txSwQueue, |s.txSwQueue|, p) + Count(s.released, p) + TxCount(s.hw, |s.hw|, p)
  }

  // Occurrences in every place a packet can be in.
  function Total(s: Ap, p: Packet): nat {
    PsCount(s.entries, |s.entries|, p) + Count(s.mcastPsQueue, p) + Done(s, p)
  }

  // Packets move onward only, and only a packet that moves is marked MoreData.
  predicate Onward(s: Ap, t: Ap, p: Packet) {
    && Done(t, p) >= Done(s, p)
    && (p in t.more && p !in s.more ==> Done(t, p) > Done(s, p))
  }

  // The step moves packets but neither adds nor drops one.
  predicate Same(s: Ap, t: Ap, p: Packet) {
    Total(t, p) == Total(s, p) && Onward(s, t, p) && t.given == s.given
  }

  // Only the queues and the logs count.
  lemma FieldsSame(s: Ap, t: Ap, p: Packet)
    requires s.entries == t.entries && s.txSwQueue == t.txSwQueue && s.mcastPsQueue == t.mcastPsQueue
    requires s.released == t.released && s.hw == t.hw && s.given == t.given && s.more == t.more
    ensures Same(s, t, p)
  {
  }

  // ---------- updates of one queue ----------

  lemma {:induction false} PsCountUpdate(entries: seq<Entry>, n: nat, i: nat, e: Entry, p: Packet)
    requires i < |entries| && n <= |entries|
    ensures PsCount(entries[i := e], n, p) + (if i < n then Count(entries[i].psQueue, p) else 0)
         == PsCount(entries, n, p) + (if i < n then Count(e.psQueue, p) else 0)
  {
    if n > 0 {
      PsCountUpdate(entries, n - 1, i, e, p);
    }
  }

  lemma {:induction false} TxCountUpdate(queues: seq<seq<Packet>>, n: nat, i: nat, q: seq<Packet>, p: Packet)
    requires i < |queues| && n <= |queues|
    ensures TxCount(queues[i := q], n, p) + (if i < n then Count(queues[i], p) else 0)
         == TxCount(queues, n, p) + (if i < n then Count(q, p) else 0)
  {
    if n > 0 {
      TxCountUpdate(queues, n - 1, i, q, p);
    }
  }

  lemma SetEntryTotal(s: Ap, w: nat, e: Entry, p: Packet)
    requires Shape(s) && w < |s.entries| && e.apidx < |s.bss|
    ensures Total(SetEntry(s, w, e), p) + Count(s.entries[w].psQueue, p) == Total(s, p) + Count(e.psQueue, p)
  {
    PsCountUpdate(s.entries, |s.entries|, w, e, p);
  }

  lemma SetEntrySame(s: Ap, w: nat, e: Entry, p: Packet)
    requires Shape(s) && w < |s.entries| && e.apidx < |s.bss| && e.psQueue == s.entries[w].psQueue
    ensures Same(s, SetEntry(s, w, e), p)
  {
    SetEntryTotal(s, w, e, p);
  }

  lemma EnqueueTotal(s: Ap, qid: nat, q: seq<Packet>, p: Packet)
    requires Shape(s) && qid < NUM_OF_TX_RING
    ensures Total(EnqueueTx(s, qid, q), p) == Total(s, p) + Count(q, p)
    ensures Done(EnqueueTx(s, qid, q), p) == Done(s, p) + Count(q, p)
  {
    TxCountUpdate(s.txSwQueue, |s.txSwQueue|, qid, s.txSwQueue[qid] + q, p);
  }

  // ---------- the handlers ----------

  lemma CleanupSame(s: Ap, w: nat, p: Packet)
    requires Shape(s) && w < |s.entries|
    ensures Same(s, CleanupPsQueue(s, w), p)
  {
    var q := s.entries[w].psQueue;
    SetEntryTotal(Release(s, q), w, s.entries[w].(psQueue := []), p);
  }

  lemma DeleteSame(s: Ap, w: nat, addr: Mac, p: Packet)
    requires Shape(s)
    ensures Same(s, Delete(s, w, addr), p)
  {
    hide CleanupPsQueue, Total, Done;
    FieldsSame(s, s, p);
    if w < MAX_LEN_OF_MAC_TABLE {
      var e := s.entries[w];
      var s1 := SetBss(s, e.apidx, s.bss[e.apidx].(staCount := s.bss[e.apidx].staCount - 1));
      var s2 := s1.(entryClientCount := s1.entryClientCount - 1, size := s1.size - 1);
      FieldsSame(s, s2, p);
      CleanupSame(s2, w, p);
      var s3 := CleanupPsQueue(s2, w);
      SetEntrySame(s3, w, s3.entries[w].(addr := ZERO_MAC, kind := EntryNone), p);
    }
  }

  lemma DeleteSlotSame(s: Ap, w: nat, p: Packet)
    requires Shape(s)
    ensures Same(s, DeleteSlot(s, w), p)
  {
    if w < |s.entries| {
      DeleteSame(s, w, s.entries[w].addr, p);
    }
  }

  lemma InsertSame(s: Ap, addr: Mac, b: nat, p: Packet)
    requires Buffered(s) && b < |s.bss|
    ensures Same(s, Insert(s, addr, b).0, p)
  {
    var i := VacancyFrom(s.entries, 1);
    if i < |s.entries| {
      assert SlotOk(s, i);
      SetEntrySame(s, i, ZeroEntry, p);
      SetEntrySame(s, i, NewEntry(s, addr, b), p);
    }
  }

  lemma InsertPsQueueTotal(s: Ap, x: Packet, w: nat, p: Packet)
    requires Shape(s) && w < MAX_LEN_OF_MAC_TABLE
    ensures Total(InsertPsQueue(s, x, w), p) == Total(s, p) + Count([x], p) && Onward(s, InsertPsQueue(s, x, w), p)
  {
    var e := s.entries[w];
    SetEntryTotal(s, w, e.(psQueue := e.psQueue + [x]), p);
  }

  lemma ReleaseTotal(s: Ap, q: seq<Packet>, p: Packet)
    ensures Total(Release(s, q), p) == Total(s, p) + Count(q, p) && Onward(s, Release(s, q), p)
  {
  }

  lemma McastTotal(s: Ap, x: Packet, p: Packet)
    ensures Total(s.(mcastPsQueue := [x] + s.mcastPsQueue), p) == Total(s, p) + Count([x], p)
    ensures Onward(s, s.(mcastPsQueue := [x] + s.mcastPsQueue), p)
  {
  }

  lemma DeliverTotal(s: Ap, r: SendReq, x: Packet, p: Packet)
    requires Shape(s) && ReqOk(r)
    ensures Deliver(s, r, x).given == s.given
    ensures Total(Deliver(s, r, x), p) == Total(s, p) + Count([x], p) && Onward(s, Deliver(s, r, x), p)
  {
    hide Total, Done;
    ReleaseTotal(s, [x], p);
    McastTotal(s, x, p);
    var s1 := s.(mcastPsQueue := [x] + s.mcastPsQueue);
    FieldsSame(s1, TimSet(s1, BssOf(s, r), 0), p);
    InsertPsQueueTotal(s, x, r.wcid, p);
    EnqueueTotal(s, r.qid, [x], p);
  }

  lemma SendTotal(s: Ap, r: SendReq, p: Packet)
    requires Shape(s) && ReqOk(r)
    ensures Send(s, r).given == s.given + [PacketOf(s, r)]
    ensures Total(Send(s, r), p) == Total(s, p) + Count([PacketOf(s, r)], p) && Onward(s, Send(s, r), p)
  {
    var x := PacketOf(s, r);
    var s1 := Given(s, x);
    assert Total(s1, p) == Total(s, p) && Onward(s, s1, p);
    hide Total, Done;
    ReleaseTotal(s1, [x], p);
    DeliverTotal(s1, r, x, p);
  }

  lemma ReleaseOneSame(s: Ap, w: nat, p: Packet)
    requires Shape(s) && w < MAX_LEN_OF_MAC_TABLE
    ensures Same(s, ReleaseOne(s, w), p)
  {
    var e := s.entries[w];
    if e.psQueue != [] {
      var s1 := SetEntry(s, w, e.(psQueue := e.psQueue[1..]));
      SetEntryTotal(s, w, e.(psQueue := e.psQueue[1..]), p);
      var s2 := if |e.psQueue| > 1 then s1.(more := s1.more + {e.psQueue[0]}) else s1;
      EnqueueTotal(s2, QID_AC_BE, [e.psQueue[0]], p);
      assert e.psQueue == [e.psQueue[0]] + e.psQueue[1..];
    }
  }

  lemma ReleaseAllSame(s: Ap, w: nat, p: Packet)
    requires Shape(s) && w < MAX_LEN_OF_MAC_TABLE
    ensures Same(s, ReleaseAll(s, w), p)
  {
    var e := s.entries[w];
    SetEntryTotal(s, w, e.(psQueue := []), p);
    EnqueueTotal(SetEntry(s, w, e.(psQueue := [])), QID_AC_BE, e.psQueue, p);
  }

  lemma HandlePsPollSame(s: Ap, addr: Mac, aid: nat, isActive: bool, p: Packet)
    requires Shape(s) && aid < MAX_LEN_OF_MAC_TABLE
    ensures Same(s, HandlePsPoll(s, addr, aid, isActive), p)
  {
    hide Total, Done, ReleaseAll, ReleaseOne;
    SetEntrySame(s, aid, s.entries[aid].(continueTxFailCnt := 0), p);
    var s1 := SetEntry(s, aid, s.entries[aid].(continueTxFailCnt := 0));
    ReleaseAllSame(s1, aid, p);
    ReleaseOneSame(s1, aid, p);
    var s2 := if isActive then ReleaseAll(s1, aid) else ReleaseOne(s1, aid);
    var e := s2.entries[aid];
    FieldsSame(s2, TimClear(s2, e.apidx, aid), p);
    SetEntrySame(TimClear(s2, e.apidx, aid), aid, e.(psQIdleCount := 0), p);
  }

  lemma PsIndicateSame(s: Ap, addr: Mac, wcid: nat, psm: PsMode, p: Packet)
    requires Shape(s)
    ensures Same(s, PsIndicate(s, addr, wcid, psm), p)
  {
    if wcid < MAX_LEN_OF_MAC_TABLE {
      var e := s.entries[wcid].(noDataIdleCount := 0, psMode := psm);
      SetEntrySame(s, wcid, e, p);
      HandlePsPollSame(SetEntry(s, wcid, e), addr, wcid, true, p);
    }
  }

  lemma SetSstSame(s: Ap, w: nat, sst: Sst, p: Packet)
    requires Shape(s) && w < MAX_LEN_OF_MAC_TABLE
    ensures Same(s, SetSst(s, w, sst), p)
  {
    SetEntrySame(s, w, s.entries[w].(sst := sst), p);
  }

  lemma AuthReqAtSame(s: Ap, w: nat, b: nat, f: AuthFrame, nonce: Challenge, p: Packet)
    requires Buffered(s) && w <= |s.entries| && b < |s.bss|
    ensures Same(s, AuthReqAt(s, w, b, f, nonce), p)
  {
    DeleteSlotSame(s, w, p);
    InsertSame(s, f.addr2, b, p);
    hide Total, Done, Buffered, Insert, DeleteSlot, AclPasses, SetSst;
    var (s1, v) := Ensure(s, w, f.addr2, b);
    if v < |s1.entries| {
      SetSstSame(s1, v, Auth, p);
      SetSstSame(s1, v, NotAuth, p);
      var s2 := SetSst(s1, v, NotAuth);
      FieldsSame(s2, s2.(auxAddr := f.addr2, auxChallenge := nonce), p);
    }
  }

  lemma AuthReqSame(s: Ap, f: AuthFrame, nonce: Challenge, p: Packet)
    requires Buffered(s)
    ensures Same(s, AuthReq(s, f, nonce), p)
  {
    var b := FindBss(s.bss, f.addr1);
    if b < |s.bss| && f.devUp {
      var v := Lookup(s, f.addr2);
      RehomeBuffered(s, v, f.addr1);
      DeleteSlotSame(s, v, p);
      hide Total, Done, Buffered, DeleteSlot, AuthReqAt;
      var (s1, w) := Rehome(s, v, f.addr1);
      AuthReqAtSame(s1, w, b, f, nonce, p);
    }
  }

  lemma AuthConfirmSame(s: Ap, f: AuthFrame, p: Packet)
    requires Shape(s)
    ensures Same(s, AuthConfirm(s, f), p)
  {
    hide Total, Done, DeleteSlot;
    if f.wcid < MAX_LEN_OF_MAC_TABLE {
      DeleteSlotSame(s, f.wcid, p);
      var (s1, w) := Rehome(s, f.wcid, f.addr1);
      DeleteSlotSame(s1, w, p);
      if w < |s1.entries| {
        SetEntrySame(s1, w, s1.entries[w].(sst := Auth), p);
      }
    }
  }

  lemma AssocSame(s: Ap, f: AssocFrame, p: Packet)
    requires Shape(s)
    ensures Same(s, AssocReq(s, f), p)
  {
    var w := Lookup(s, f.addr2);
    if w < |s.entries| {
      var s1 := BuildAssociation(s, w, f);
      SetEntrySame(s, w, s1.entries[w], p);
      SetEntrySame(s1, w, s1.entries[w].(psMode := PwrActive), p);
    }
  }

  lemma {:induction false} UpdateAclSame(s: Ap, b: nat, i: nat, p: Packet)
    requires Shape(s) && b < |s.bss| && i <= MAX_LEN_OF_MAC_TABLE
    ensures Same(s, UpdateAclFrom(s, b, i), p)
    decreases MAX_LEN_OF_MAC_TABLE - i
  {
    if i < MAX_LEN_OF_MAC_TABLE {
      DeleteSame(s, i, s.entries[i].addr, p);
      UpdateAclSame(Delete(s, i, s.entries[i].addr), b, i + 1, p);
      UpdateAclSame(s, b, i + 1, p);
    }
  }

  lemma AclSame(s: Ap, b: nat, x: Bss, p: Packet)
    requires Shape(s) && b < |s.bss| && |x.timBitmaps| == WLAN_MAX_NUM_OF_TIM
    ensures Same(s, UpdateAcl(SetBss(s, b, x), b), p)
  {
    UpdateAclSame(SetBss(s, b, x), b, 0, p);
  }

  lemma CollectSame(s: Ap, i: nat, p: Packet)
    requires Shape(s) && i < MAX_LEN_OF_MAC_TABLE
    ensures Same(s, CollectPsQueue(s, i), p)
  {
    var e := s.entries[i];
    SetEntrySame(s, i, e.(psQIdleCount := 0), p);
    SetEntrySame(s, i, e.(psQIdleCount := e.psQIdleCount + 1), p);
    CleanupSame(s, i, p);
    var s1 := CleanupPsQueue(s, i);
    SetEntrySame(s1, i, s1.entries[i].(psQIdleCount := 0), p);
  }

  lemma KeepAliveSame(s: Ap, i: nat, p: Packet)
    requires Shape(s) && i < MAX_LEN_OF_MAC_TABLE
    ensures Same(s, KeepAlive(s, i), p)
  {
    SetEntrySame(s, i, KeepAlive(s, i).entries[i], p);
  }

  lemma SweepEntrySame(s: Ap, i: nat, p: Packet)
    requires Shape(s) && i < MAX_LEN_OF_MAC_TABLE
    ensures Same(s, SweepEntry(s, i), p)
  {
    hide Total, Done, DeleteSlot, KeepAlive, CollectPsQueue;
    var e := Tick(s.entries[i]);
    SetEntrySame(s, i, e, p);
    var s1 := SetEntry(s, i, e);
    DeleteSlotSame(s1, i, p);
    var s1' := if e.psMode == PwrSave then s1.(fAnyStationInPsm := true) else s1;
    FieldsSame(s1, s1', p);
    KeepAliveSame(s1', i, p);
    var s2 := KeepAlive(s1', i);
    DeleteSlotSame(s2, i, p);
    CollectSame(s2, i, p);
    var s3 := CollectPsQueue(s2, i);
    FieldsSame(s3, s3.(fAllStationAsRalink := false), p);
  }

  lemma {:induction false} SweepFromSame(s: Ap, i: nat, p: Packet)
    requires Shape(s) && i <= MAX_LEN_OF_MAC_TABLE
    ensures Same(s, SweepFrom(s, i), p)
    decreases MAX_LEN_OF_MAC_TABLE - i
  {
    if i < MAX_LEN_OF_MAC_TABLE {
      SweepEntrySame(s, i, p);
      SweepFromSame(SweepEntry(s, i), i + 1, p);
    }
  }

  lemma {:induction false} PortsSame(s: Ap, b: nat, p: Packet)
    requires Shape(s) && b <= |s.bss|
    ensures Same(s, PortsFrom(s, b), p)
    decreases |s.bss| - b
  {
    if b < |s.bss| {
      PortsSame(SetBss(s, b, s.bss[b].(portSecured := AnyPortSecured(s, b))), b + 1, p);
    }
  }

  lemma {:induction false} BcmcClearSame(s: Ap, b: nat, p: Packet)
    requires Shape(s) && b <= |s.bss|
    ensures Same(s, BcmcClearFrom(s, b), p)
    decreases |s.bss| - b
  {
    if b < |s.bss| {
      BcmcClearSame(TimClear(s, b, 0), b + 1, p);
    }
  }

  lemma CollectMcastSame(s: Ap, p: Packet)
    requires Shape(s)
    ensures Same(s, CollectMcast(s), p)
  {
    FieldsSame(s, s.(mcastPsQIdleCount := 0), p);
    FieldsSame(s, s.(mcastPsQIdleCount := s.mcastPsQIdleCount + 1), p);
    var s1 := Release(s, s.mcastPsQueue).(mcastPsQueue := [], mcastPsQIdleCount := 0);
    assert Same(s, s1, p);
    BcmcClearSame(s1, 0, p);
  }

  lemma SweepSame(s: Ap, p: Packet)
    requires Shape(s)
    ensures Same(s, Sweep(s), p)
  {
    hide Total, Done, SweepFrom, PortsFrom, CollectMcast;
    var s0 := s.(fAnyStationInPsm := false, fAllStationAsRalink := true);
    FieldsSame(s, s0, p);
    SweepFromSame(s0, 1, p);
    var s1 := SweepFrom(s0, 1);
    PortsSame(s1, 0, p);
    CollectMcastSame(PortsFrom(s1, 0), p);
  }

  lemma {:induction false} DtimLoopSame(s: Ap, count: nat, p: Packet)
    requires Shape(s)
    ensures Same(s, DtimLoop(s, count), p)
    decreases |s.mcastPsQueue|
  {
    if s.mcastPsQueue != [] {
      var x := s.mcastPsQueue[0];
      var q := [x] + s.txSwQueue[QID_AC_BE];
      TxCountUpdate(s.txSwQueue, |s.txSwQueue|, QID_AC_BE, q, p);
      assert s.mcastPsQueue == [x] + s.mcastPsQueue[1..];
      DtimLoopSame(s.(mcastPsQueue := s.mcastPsQueue[1..],
                      more := if count > 0 then s.more + {x} else s.more,
                      txSwQueue := s.txSwQueue[QID_AC_BE := q]), count + 1, p);
    }
  }

  lemma DtimSame(s: Ap, p: Packet)
    requires Shape(s)
    ensures Same(s, Dtim(s), p)
  {
    DtimLoopSame(s, 0, p);
    BcmcClearSame(DtimLoop(s, 0), 0, p);
  }

  lemma DequeueSame(s: Ap, qid: nat, ok: bool, p: Packet)
    requires Shape(s) && qid < NUM_OF_TX_RING
    ensures Same(s, Dequeue(s, qid, ok), p)
  {
    var q := s.txSwQueue[qid];
    if q != [] {
      TxCountUpdate(s.txSwQueue, |s.txSwQueue|, qid, q[1..], p);
      TxCountUpdate(s.hw, |s.hw|, qid, s.hw[qid] + [q[0]], p);
      assert q == [q[0]] + q[1..];
    }
  }

  // ---------- runs ----------

  // Every step but sending only moves packets.
  lemma StepSame(s: Ap, e: Event, p: Packet)
    requires Enabled(s, e) && Buffered(s) && !e.EvSend?
    ensures Same(s, Step(s, e), p)
  {
    hide HandlePsPoll, PsIndicate, AuthReq, AuthConfirm, AssocReq, Delete, UpdateAcl, Sweep, Dtim, Dequeue, SlotOk, Same,
         ClassFilterPasses, Lookup;
    FieldsSame(s, s, p);
    match e
    case EvPsPoll(aid, a) => if aid < MAX_LEN_OF_MAC_TABLE { HandlePsPollSame(s, a, aid, false, p); }
    case EvRxData(w, a, psm) => PsIndicateSame(s, a, w, psm, p); DeleteSame(s, w, a, p);
    case EvRxAction(w, a, psm) => PsIndicateSame(s, a, w, psm, p);
    case EvAuth(f, nonce) => AuthReqSame(s, f, nonce, p); AuthConfirmSame(s, f, p);
    case EvAssoc(f) => AssocSame(s, f, p);
    case EvDeauth(w, a) => DeleteSame(s, w, a, p);
    case EvDisassoc(w, a) => DeleteSame(s, w, a, p);
    case EvKickOut(a) => DeleteSame(s, Lookup(s, a), a, p);
    case EvPolicy(b, policy) => AclSame(s, b, s.bss[b].(policy := policy), p);
    case EvAclAdd(b, addrs) => AclSame(s, b, s.bss[b].(acl := AclList.Add(s.bss[b].acl, addrs)), p);
    case EvAclDel(b, addrs) => AclSame(s, b, s.bss[b].(acl := AclList.Del(s.bss[b].acl, addrs)), p);
    case EvAclClear(b) => AclSame(s, b, s.bss[b].(acl := []), p);
    case EvSweep => SweepSame(s, p);
    case EvDtim => DtimSame(s, p);
    case EvDequeue(q, ok) => DequeueSame(s, q, ok, p);
    case EvTxStatus(w, ok) => if w < MAX_LEN_OF_MAC_TABLE { SetEntrySame(s, w, TxStatus(s, w, ok).entries[w], p); }
  }

  ghost predicate Conserved(s: Ap) {
    && Buffered(s)
    && (forall p :: Total(s, p) == Count(s.given, p))
    && (forall n :: 0 <= n < |s.given| ==> s.given[n].no == n)
    && (forall p :: p in s.more ==> Done(s, p) >= 1)
  }

  // What a step appends to the log of given packets.
  function NewlyGiven(s: Ap, e: Event): seq<Packet>
    requires Enabled(s, e)
  {
    if e.EvSend? then [PacketOf(s, e.req)] else []
  }

  lemma StepTotal(s: Ap, e: Event, p: Packet)
    requires Enabled(s, e) && Buffered(s)
    ensures Step(s, e).given == s.given + NewlyGiven(s, e)
    ensures Total(Step(s, e), p) == Total(s, p) + Count(NewlyGiven(s, e), p) && Onward(s, Step(s, e), p)
  {
    hide Total, Done;
    if e.EvSend? {
      SendTotal(s, e.req, p);
    } else {
      StepSame(s, e, p);
    }
  }

  lemma StepConserves(s: Ap, e: Event)
    requires Enabled(s, e) && Conserved(s)
    ensures Conserved(Step(s, e))
  {
    hide Total, Done, Step;
    StepBuffered(s, e);
    forall p
      ensures Total(Step(s, e), p) == Count(Step(s, e).given, p)
      ensures p in Step(s, e).more ==> Done(Step(s, e), p) >= 1
    {
      StepTotal(s, e, p);
    }
    StepTotal(s, e, Packet(0, 0));
  }

  lemma {:induction false} RunConserves(s: Ap, es: seq<Event>)
    requires Run(s, es) && Conserved(s)
    ensures Conserved(Exec(s, es))
    decreases es
  {
    if es != [] {
      StepConserves(s, es[0]);
      RunConserves(Step(s, es[0]), es[1..]);
    }
  }

  lemma NothingHeld(entries: seq<Entry>, queues: seq<seq<Packet>>, p: Packet)
    requires forall i :: 0 <= i < |entries| ==> entries[i].psQueue == []
    requires forall i :: 0 <= i < |queues| ==> queues[i] == []
    ensures PsCount(entries, |entries|, p) == 0 && TxCount(queues, |queues|, p) == 0
  {
    NoneIn(entries, queues, |entries|, |queues|, p);
  }

  lemma {:induction false} NoneIn(entries: seq<Entry>, queues: seq<seq<Packet>>, n: nat, m: nat, p: Packet)
    requires n <= |entries| && m <= |queues|
    requires forall i :: 0 <= i < |entries| ==> entries[i].psQueue == []
    requires forall i :: 0 <= i < |queues| ==> queues[i] == []
    ensures PsCount(entries, n, p) == 0 && TxCount(queues, m, p) == 0
  {
    if n > 0 {
      NoneIn(entries, queues, n - 1, m, p);
    } else if m > 0 {
      NoneIn(entries, queues, n, m - 1, p);
    }
  }

  lemma InitConserved(s: Ap)
    requires Init(s)
    ensures Conserved(s)
  {
    forall p
      ensures Total(s, p) == 0
    {
      NothingHeld(s.entries, s.txSwQueue, p);
      NothingHeld(s.entries, s.hw, p);
    }
  }

  lemma {:induction false} OnceOnly(g: seq<Packet>, p: Packet)
    requires forall n :: 0 <= n < |g| ==> g[n].no == n
    ensures Count(g, p) == if p in g then 1 else 0
  {
    if g != [] {
      var k := |g| - 1;
      OnceOnly(g[..k], p);
      assert g == g[..k] + [g[k]];
      assert forall q :: q in g[..k] ==> q.no < k;
    }
  }

  /** Over every run from an initial state, each packet given to APSendPacket occurs exactly once among
      the released packets, the packets passed to the hardware, the power-save queues, the multicast queue
      and the transmit queues, and nothing else occurs there. */
  lemma PacketsConserved(s: Ap, es: seq<Event>, p: Packet)
    requires Init(s) && Run(s, es)
    ensures Total(Exec(s, es), p) == if p in Exec(s, es).given then 1 else 0
  {
    InitConserved(s);
    RunConserves(s, es);
    OnceOnly(Exec(s, es).given, p);
  }

  lemma {:induction false} PsCountAtLeast(entries: seq<Entry>, n: nat, w: nat, p: Packet)
    requires w < n <= |entries|
    ensures Count(entries[w].psQueue, p) <= PsCount(entries, n, p)
  {
    if w < n - 1 {
      PsCountAtLeast(entries, n - 1, w, p);
    }
  }

  // A buffered packet has not been marked MoreData.
  lemma BufferedUnmarked(s: Ap, w: nat, p: Packet)
    requires Conserved(s) && w < MAX_LEN_OF_MAC_TABLE && p in s.entries[w].psQueue
    ensures p !in s.more
  {
    OnceOnly(s.given, p);
    PsCountAtLeast(s.entries, |s.entries|, w, p);
  }

  /** In every reachable state, a PS-Poll from a station with buffered packets releases the oldest one and
      nothing else, marked MoreData exactly when others remain; the TIM bit of the station is left set
      exactly in that case. */
  lemma PsPollReleasesOldest(s0: Ap, es: seq<Event>, w: nat)
    requires Init(s0) && Run(s0, es) && w < MAX_LEN_OF_MAC_TABLE
    requires Exec(s0, es).entries[w].psQueue != []
    ensures var s := Exec(s0, es);
            var e := s.entries[w]; var q := e.psQueue;
            var t := HandlePsPoll(s, e.addr, w, false);
            && t.entries[w] == e.(psQueue := q[1..], continueTxFailCnt := 0, psQIdleCount := if |q| == 1 then 0 else e.psQIdleCount)
            && t.txSwQueue[QID_AC_BE] == s.txSwQueue[QID_AC_BE] + [q[0]]
            && (q[0] in t.more <==> |q| > 1)
            && (TimMarked(t, e.apidx, w) <==> |q| > 1)
            && (forall v :: 0 <= v < MAX_LEN_OF_MAC_TABLE && v != w ==> t.entries[v] == s.entries[v])
  {
    InitConserved(s0);
    RunConserves(s0, es);
    var s := Exec(s0, es);
    BufferedUnmarked(s, w, s.entries[w].psQueue[0]);
    assert SlotOk(s, w);
    hide Conserved, Buffered;
  }
}
