/** What reaches the hardware: each ring other than the best-effort one gets its packets in send order over every run,
    a dequeue hands over the head of its queue, what a waking station was owed comes out in the order it was
    queued, and packets are dropped by the steps that are meant to drop them and by no others. */
module Delivery {
  import opened Types
  import opened MacTable
  import opened Steps
  import opened PowerSave
  import opened Conservation
  import opened DeliveryOrder
  import opened Wrappers

  // ---------- the rings a step leaves alone ----------

  // The hardware gets nothing, only the best-effort queue may change and what has been released stays released.
  predicate RingsKept(s: Ap, t: Ap) {
    && Shape(s) && Shape(t) && t.hw == s.hw && s.released <= t.released
    && (forall q :: 0 <= q < NUM_OF_TX_RING && q != QID_AC_BE ==> t.txSwQueue[q] == s.txSwQueue[q])
  }

  lemma {:induction false} UpdateAclRings(s: Ap, b: nat, i: nat)
    requires Shape(s) && b < |s.bss| && i <= MAX_LEN_OF_MAC_TABLE
    ensures RingsKept(s, UpdateAclFrom(s, b, i))
    decreases MAX_LEN_OF_MAC_TABLE - i
  {
    if i < MAX_LEN_OF_MAC_TABLE {
      UpdateAclRings(Delete(s, i, s.entries[i].addr), b, i + 1);
      UpdateAclRings(s, b, i + 1);
    }
  }

  lemma AclRings(s: Ap, b: nat, x: Bss)
    requires Shape(s) && b < |s.bss| && |x.timBitmaps| == WLAN_MAX_NUM_OF_TIM
    ensures RingsKept(s, UpdateAcl(SetBss(s, b, x), b))
  {
    UpdateAclRings(SetBss(s, b, x), b, 0);
  }

  lemma DeleteSlotRings(s: Ap, i: nat)
    requires Shape(s)
    ensures RingsKept(s, DeleteSlot(s, i))
  {
  }

  lemma KeepAliveRings(s: Ap, i: nat)
    requires Shape(s) && i < MAX_LEN_OF_MAC_TABLE
    ensures RingsKept(s, KeepAlive(s, i))
  {
    hide TimBitSet, TimBit;
  }

  lemma CollectRings(s: Ap, i: nat)
    requires Shape(s) && i < MAX_LEN_OF_MAC_TABLE
    ensures RingsKept(s, CollectPsQueue(s, i))
  {
    hide TimBitClear, TimBit;
  }

  lemma SweepEntryRings(s: Ap, i: nat)
    requires Shape(s) && i < MAX_LEN_OF_MAC_TABLE
    ensures RingsKept(s, SweepEntry(s, i))
  {
    hide TimBitSet, TimBitClear, AgedOut, DeleteSlot, KeepAlive, CollectPsQueue;
    var e := Tick(s.entries[i]);
    var s1 := SetEntry(s, i, e);
    var s1' := if e.psMode == PwrSave then s1.(fAnyStationInPsm := true) else s1;
    var s2 := KeepAlive(s1', i);
    DeleteSlotRings(s1, i);
    DeleteSlotRings(s2, i);
    KeepAliveRings(s1', i);
    CollectRings(s2, i);
  }

  lemma {:induction false} SweepFromRings(s: Ap, i: nat)
    requires Shape(s) && i <= MAX_LEN_OF_MAC_TABLE
    ensures RingsKept(s, SweepFrom(s, i))
    decreases MAX_LEN_OF_MAC_TABLE - i
  {
    hide SweepEntry;
    if i < MAX_LEN_OF_MAC_TABLE {
      SweepEntryRings(s, i);
      SweepFromRings(SweepEntry(s, i), i + 1);
    }
  }

  lemma {:induction false} BcmcReleases(s: Ap, b: nat)
    requires Shape(s) && b <= |s.bss|
    ensures BcmcClearFrom(s, b).released == s.released
    decreases |s.bss| - b
  {
    if b < |s.bss| {
      BcmcReleases(TimClear(s, b, 0), b + 1);
    }
  }

  lemma {:induction false} PortsReleases(s: Ap, b: nat)
    requires Shape(s) && b <= |s.bss|
    ensures PortsFrom(s, b).released == s.released
    decreases |s.bss| - b
  {
    if b < |s.bss| {
      PortsReleases(SetBss(s, b, s.bss[b].(portSecured := AnyPortSecured(s, b))), b + 1);
    }
  }

  lemma CollectMcastReleases(s: Ap)
    requires Shape(s)
    ensures s.released <= CollectMcast(s).released
  {
    BcmcReleases(Release(s, s.mcastPsQueue).(mcastPsQueue := [], mcastPsQIdleCount := 0), 0);
  }

  lemma SweepRings(s: Ap)
    requires Shape(s)
    ensures RingsKept(s, Sweep(s))
  {
    hide SweepFrom, PortsFrom, CollectMcast;
    var s0 := s.(fAnyStationInPsm := false, fAllStationAsRalink := true);
    SweepFromRings(s0, 1);
    var s1 := SweepFrom(s0, 1);
    PortsKept(s1, 0);
    PortsReleases(s1, 0);
    var s2 := PortsFrom(s1, 0);
    CollectMcastKept(s2);
    CollectMcastReleases(s2);
  }

  lemma {:induction false} DtimLoopRings(s: Ap, count: nat)
    requires Shape(s)
    ensures RingsKept(s, DtimLoop(s, count)) && DtimLoop(s, count).released == s.released
    decreases |s.mcastPsQueue|
  {
    if s.mcastPsQueue != [] {
      var p := s.mcastPsQueue[0];
      var s1 := s.(mcastPsQueue := s.mcastPsQueue[1..],
                   more := if count > 0 then s.more + {p} else s.more,
                   txSwQueue := s.txSwQueue[QID_AC_BE := [p] + s.txSwQueue[QID_AC_BE]]);
      DtimLoopRings(s1, count + 1);
    }
  }

  lemma PsPollRings(s: Ap, addr: Mac, aid: nat, isActive: bool)
    requires Shape(s) && aid < MAX_LEN_OF_MAC_TABLE
    ensures RingsKept(s, HandlePsPoll(s, addr, aid, isActive))
    ensures HandlePsPoll(s, addr, aid, isActive).released == s.released
  {
    hide TimBitClear, TimBit;
  }

  lemma PsIndicateRings(s: Ap, addr: Mac, v: nat, psm: PsMode)
    requires Shape(s)
    ensures RingsKept(s, PsIndicate(s, addr, v, psm)) && PsIndicate(s, addr, v, psm).released == s.released
  {
    hide HandlePsPoll;
    if v < MAX_LEN_OF_MAC_TABLE {
      PsPollRings(SetEntry(s, v, s.entries[v].(noDataIdleCount := 0, psMode := psm)), addr, v, true);
    }
  }

  lemma SelfRings(s: Ap)
    requires Shape(s)
    ensures RingsKept(s, s)
  {
  }

  lemma DeleteRings(s: Ap, v: nat, addr: Mac)
    requires Shape(s)
    ensures RingsKept(s, Delete(s, v, addr))
  {
  }

  lemma AssocRings(s: Ap, f: AssocFrame)
    requires Shape(s)
    ensures RingsKept(s, AssocReq(s, f)) && AssocReq(s, f).released == s.released
  {
    hide Lookup, AssocSucceeds, AclRejectBranch;
  }

  lemma TxStatusRings(s: Ap, v: nat, ok: bool)
    requires Shape(s)
    ensures RingsKept(s, TxStatus(s, v, ok)) && TxStatus(s, v, ok).released == s.released
  {
  }

  lemma AuthRings(s: Ap, f: AuthFrame, nonce: Challenge)
    requires Buffered(s)
    ensures RingsKept(s, RxAuth(s, f, nonce))
  {
    hide RxAuth, SlotOk, Readmits;
    AuthTouches(s, f, nonce, 1);
  }

  lemma DtimRings(s: Ap)
    requires Shape(s)
    ensures RingsKept(s, Dtim(s)) && Dtim(s).released == s.released
  {
    hide DtimLoop, BcmcClearFrom;
    DtimLoopRings(s, 0);
    BcmcKept(DtimLoop(s, 0), 0);
    BcmcReleases(DtimLoop(s, 0), 0);
  }

  // Only sending and dequeueing touch the other rings.
  lemma StepRings(s: Ap, e: Event)
    requires Enabled(s, e) && Buffered(s) && !e.EvSend? && !e.EvDequeue?
    ensures RingsKept(s, Step(s, e))
  {
    hide HandlePsPoll, PsIndicate, RxAuth, UpdateAcl, Sweep, Dtim, Delete, AssocReq, TxStatus, Lookup, SlotOk, RingsKept;
    SelfRings(s);
    match e
    case EvPsPoll(aid, a) => if aid < MAX_LEN_OF_MAC_TABLE { PsPollRings(s, a, aid, false); }
    case EvRxData(v, a, psm) => PsIndicateRings(s, a, v, psm); DeleteRings(s, v, a);
    case EvRxAction(v, a, psm) => PsIndicateRings(s, a, v, psm);
    case EvAuth(f, nonce) => AuthRings(s, f, nonce);
    case EvAssoc(f) => AssocRings(s, f);
    case EvDeauth(v, a) => DeleteRings(s, v, a);
    case EvDisassoc(v, a) => DeleteRings(s, v, a);
    case EvKickOut(a) => DeleteRings(s, Lookup(s, a), a);
    case EvPolicy(b, policy) => AclRings(s, b, s.bss[b].(policy := policy));
    case EvAclAdd(b, addrs) => AclRings(s, b, s.bss[b].(acl := AclList.Add(s.bss[b].acl, addrs)));
    case EvAclDel(b, addrs) => AclRings(s, b, s.bss[b].(acl := AclList.Del(s.bss[b].acl, addrs)));
    case EvAclClear(b) => AclRings(s, b, s.bss[b].(acl := []));
    case EvSweep => SweepRings(s);
    case EvDtim => DtimRings(s);
    case EvTxStatus(v, ok) => TxStatusRings(s, v, ok);
  }

  // ---------- the order in which a ring gets its packets ----------

  // What ring `q` of the hardware has got, followed by what waits for it.
  function Line(s: Ap, q: nat): seq<Packet>
    requires Shape(s) && q < NUM_OF_TX_RING
  {
    s.hw[q] + s.txSwQueue[q]
  }

  predicate LineOrdered(s: Ap, q: nat)
    requires Shape(s) && q < NUM_OF_TX_RING
  {
    InSendOrder(Line(s, q)) && AllBelow(Line(s, q), |s.given|)
  }

  lemma SendLine(s: Ap, r: SendReq, q: nat)
    requires Shape(s) && ReqOk(r) && q < NUM_OF_TX_RING
    ensures var t, p := Send(s, r), PacketOf(s, r);
            && t.given == s.given + [p]
            && (Line(t, q) == Line(s, q) || Line(t, q) == Line(s, q) + [p])
  {
    hide Refused, TimBitSet;
    Joined(s.hw[q], s.txSwQueue[q], [PacketOf(s, r)]);
  }

  lemma DequeueLine(s: Ap, qid: nat, ok: bool, q: nat)
    requires Shape(s) && qid < NUM_OF_TX_RING && q < NUM_OF_TX_RING && LineOrdered(s, q)
    ensures LineOrdered(Dequeue(s, qid, ok), q)
  {
    hide InSendOrder, AllBelow;
    var h, x := s.hw[q], s.txSwQueue[q];
    if q == qid && x != [] {
      assert x == [x[0]] + x[1..];
      Joined(h, [x[0]], x[1..]);
      OrderedWithout(h, [x[0]], x[1..], |s.given|);
    }
  }

  lemma StepLine(s: Ap, e: Event, q: nat)
    requires Enabled(s, e) && Buffered(s) && q < NUM_OF_TX_RING && q != QID_AC_BE && LineOrdered(s, q)
    ensures LineOrdered(Step(s, e), q)
  {
    hide Send, Dequeue, Step, Enabled;
    match e
    case EvSend(r) =>
      SendStep(s, r);
      SendLine(s, r, q);
      OrderedAppend(Line(s, q), PacketOf(s, r));
    case EvDequeue(qid, ok) =>
      DequeueStep(s, qid, ok);
      DequeueLine(s, qid, ok, q);
    case _ =>
      StepRings(s, e);
      StepTotal(s, e, Packet(0, 0));
  }

  lemma SendStep(s: Ap, r: SendReq)
    requires Enabled(s, EvSend(r))
    ensures ReqOk(r) && Step(s, EvSend(r)) == Send(s, r)
  {
  }

  lemma DequeueStep(s: Ap, q: nat, ok: bool)
    requires Enabled(s, EvDequeue(q, ok))
    ensures Shape(s) && q < NUM_OF_TX_RING && Step(s, EvDequeue(q, ok)) == Dequeue(s, q, ok)
  {
  }

  lemma {:induction false} RunLine(s: Ap, es: seq<Event>, q: nat)
    requires Run(s, es) && Buffered(s) && q < NUM_OF_TX_RING && q != QID_AC_BE && LineOrdered(s, q)
    ensures LineOrdered(Exec(s, es), q)
    decreases es
  {
    if es != [] {
      StepBuffered(s, es[0]);
      StepLine(s, es[0], q);
      RunLine(Step(s, es[0]), es[1..], q);
    }
  }

  /** Over every run from an initial state, each ring of the hardware other than the best-effort one has got its packets
      in the order in which they were sent, and those that wait for it will follow in that order. */
  lemma RingInOrder(s: Ap, es: seq<Event>, q: nat)
    requires Init(s) && Run(s, es) && q < NUM_OF_TX_RING && q != QID_AC_BE
    ensures var t := Exec(s, es); InSendOrder(t.hw[q] + t.txSwQueue[q])
  {
    RunLine(s, es, q);
  }

  // ---------- draining a queue ----------

  // One dequeue after the other, with the given outcomes.
  function Dequeues(q: nat, oks: seq<bool>): seq<Event> {
    if oks == [] then [] else [EvDequeue(q, oks[0])] + Dequeues(q, oks[1..])
  }

  // The packets whose dequeue had the outcome `ok`, in order.
  function Chosen(x: seq<Packet>, oks: seq<bool>, ok: bool): seq<Packet>
    requires |oks| <= |x|
  {
    if oks == [] then [] else (if oks[0] == ok then [x[0]] else []) + Chosen(x[1..], oks[1..], ok)
  }

  lemma DequeueOne(s: Ap, q: nat, ok: bool)
    requires Shape(s) && q < NUM_OF_TX_RING && s.txSwQueue[q] != []
    ensures var x := s.txSwQueue[q];
            Step(s, EvDequeue(q, ok)) == s.(txSwQueue := s.txSwQueue[q := x[1..]],
                                            hw := s.hw[q := s.hw[q] + if ok then [x[0]] else []],
                                            released := s.released + if ok then [] else [x[0]])
  {
    NothingAdded(s.hw[q]);
    NothingAdded(s.released);
    assert s.hw[q := s.hw[q]] == s.hw;
  }

  // The queue is served from its head: what is dequeued successfully goes to the hardware, the rest is released.
  lemma {:induction false} DequeuesMove(s: Ap, q: nat, oks: seq<bool>)
    requires Shape(s) && q < NUM_OF_TX_RING && |oks| <= |s.txSwQueue[q]|
    ensures Run(s, Dequeues(q, oks))
    ensures var x := s.txSwQueue[q];
            Exec(s, Dequeues(q, oks)) == s.(txSwQueue := s.txSwQueue[q := x[|oks|..]],
                                            hw := s.hw[q := s.hw[q] + Chosen(x, oks, true)],
                                            released := s.released + Chosen(x, oks, false))
    decreases |oks|
  {
    var x := s.txSwQueue[q];
    if oks == [] {
      assert x[0..] == x && s.hw[q] + [] == s.hw[q] && s.released + [] == s.released;
      assert s.txSwQueue[q := x] == s.txSwQueue && s.hw[q := s.hw[q]] == s.hw;
    } else {
      hide Step, Run, Exec;
      DequeueOne(s, q, oks[0]);
      var t := Step(s, EvDequeue(q, oks[0]));
      var rest := oks[1..];
      DequeuesMove(t, q, rest);
      RunCons(s, EvDequeue(q, oks[0]), Dequeues(q, rest));
      assert x[1..][|rest|..] == x[|oks|..];
      Joined(s.hw[q], if oks[0] then [x[0]] else [], Chosen(x[1..], rest, true));
      Joined(s.released, if oks[0] then [] else [x[0]], Chosen(x[1..], rest, false));
    }
  }

  // A frame of the station in slot `w` that the driver takes for a sign of wakefulness.
  predicate WakingFrame(s: Ap, e: Event, w: nat)
    requires Shape(s) && w < MAX_LEN_OF_MAC_TABLE
  {
    var a := s.entries[w].addr;
    s.entries[w].kind == EntryClient
    && (e == EvRxAction(w, a, PwrActive) || (e == EvRxData(w, a, PwrActive) && s.entries[w].sst == Assoc))
  }

  // The beacons of BSS `b` do not announce packets for AID `w`.
  predicate Unannounced(bss: seq<Bss>, b: nat, w: nat) {
    b < |bss| && w / 8 < |bss[b].timBitmaps| && !TimBit(bss[b].timBitmaps, w)
  }

  // The station after it has shown that it is awake.
  function Awake(e: Entry): Entry {
    e.(psMode := PwrActive, psQueue := [], psQIdleCount := 0, noDataIdleCount := 0, continueTxFailCnt := 0)
  }

  lemma WakeUpMoves(s: Ap, e: Event, w: nat)
    requires Buffered(s) && w < MAX_LEN_OF_MAC_TABLE && s.entries[w].psMode == PwrSave && WakingFrame(s, e, w)
    ensures Enabled(s, e)
    ensures var t := Step(s, e);
            && t.txSwQueue[QID_AC_BE] == s.txSwQueue[QID_AC_BE] + s.entries[w].psQueue
            && t.hw == s.hw && t.released == s.released && t.more == s.more
            && t.entries[w] == Awake(s.entries[w])
            && Unannounced(t.bss, s.entries[w].apidx, w)
  {
    assert SlotOk(s, w);
  }

  lemma WakeUpDrains(s: Ap, e: Event, w: nat, oks: seq<bool>)
    requires Buffered(s) && w < MAX_LEN_OF_MAC_TABLE && s.entries[w].psMode == PwrSave && WakingFrame(s, e, w)
    requires |oks| == |s.txSwQueue[QID_AC_BE] + s.entries[w].psQueue|
    ensures var es := [e] + Dequeues(QID_AC_BE, oks);
            var line := s.txSwQueue[QID_AC_BE] + s.entries[w].psQueue;
            && Run(s, es)
            && Exec(s, es).hw[QID_AC_BE] == s.hw[QID_AC_BE] + Chosen(line, oks, true)
            && Exec(s, es).released == s.released + Chosen(line, oks, false)
            && Exec(s, es).txSwQueue[QID_AC_BE] == [] && Exec(s, es).entries[w] == Awake(s.entries[w]) && Exec(s, es).more == s.more
            && Unannounced(Exec(s, es).bss, s.entries[w].apidx, w)
  {
    hide Step, Enabled, Unannounced, WakingFrame, SlotOk, Exec, Run, Dequeues, Chosen;
    WakeUpMoves(s, e, w);
    var t := Step(s, e);
    DequeuesMove(t, QID_AC_BE, oks);
    RunCons(s, e, Dequeues(QID_AC_BE, oks));
    assert t.txSwQueue[QID_AC_BE][|oks|..] == [];
  }

  lemma InitBuffered(s: Ap)
    requires Init(s)
    ensures Buffered(s)
  {
  }

  /** When a sleeping station of a reachable state shows that it is awake, the packets that were buffered for it follow those
      that waited before, in the order in which they were buffered: with every outcome of the dequeues the hardware gets
      exactly those that are dequeued successfully and the others are released, each in that order.  None is marked
      MoreData, and the beacons stop announcing packets for the station. */
  lemma WakeUpDelivers(s0: Ap, es: seq<Event>, e: Event, w: nat, oks: seq<bool>)
    requires Init(s0) && Run(s0, es) && w < MAX_LEN_OF_MAC_TABLE
    requires Exec(s0, es).entries[w].psMode == PwrSave && WakingFrame(Exec(s0, es), e, w)
    requires |oks| == |Exec(s0, es).txSwQueue[QID_AC_BE] + Exec(s0, es).entries[w].psQueue|
    ensures var s := Exec(s0, es);
            var ds := [e] + Dequeues(QID_AC_BE, oks);
            var line := s.txSwQueue[QID_AC_BE] + s.entries[w].psQueue;
            && Run(s, ds)
            && Exec(s, ds).hw[QID_AC_BE] == s.hw[QID_AC_BE] + Chosen(line, oks, true)
            && Exec(s, ds).released == s.released + Chosen(line, oks, false)
            && Exec(s, ds).txSwQueue[QID_AC_BE] == [] && Exec(s, ds).entries[w] == Awake(s.entries[w]) && Exec(s, ds).more == s.more
            && Unannounced(Exec(s, ds).bss, s.entries[w].apidx, w)
  {
    hide Unannounced, WakingFrame, Dequeues, Exec, Run, Init, Chosen;
    InitBuffered(s0);
    RunBuffered(s0, es);
    WakeUpDrains(Exec(s0, es), e, w, oks);
  }

  /** A PS-Poll that does not come from the station in the slot changes nothing, and one of a station for which nothing is buffered
      moves no packet and leaves it unannounced. */
  lemma PsPollOtherwise(s: Ap, addr: Mac, aid: nat)
    requires Shape(s) && aid < MAX_LEN_OF_MAC_TABLE
    ensures Enabled(s, EvPsPoll(aid, addr))
    ensures var t := Step(s, EvPsPoll(aid, addr)); var e := s.entries[aid];
            && (e.addr != addr ==> t == s)
            && (e.addr == addr && e.psQueue == [] ==>
                  && t.txSwQueue == s.txSwQueue && t.hw == s.hw && t.released == s.released && t.more == s.more
                  && t.entries == s.entries[aid := t.entries[aid]] && t.entries[aid].psQueue == []
                  && (aid > 0 ==> Unannounced(t.bss, e.apidx, aid)))
  {
  }

  // ---------- which packets are dropped ----------

  // The packet gets as far as the choice of a queue: it is sound, its station is in the table, or some station is if it
  // is a group packet, and the port it needs is open.
  predicate Sendable(s: Ap, r: SendReq)
    requires Shape(s) && ReqOk(r)
  {
    var group := r.wcid == 0;
    var b := s.bss[if !group then s.entries[r.wcid].apidx else if r.apidx < |s.bss| then r.apidx else 0];
    && r.bufOk && r.etherOk && r.len > 14
    && (if group then s.entryClientCount != 0 else s.entries[r.wcid].kind == EntryClient)
    && (r.eapol || (b.authMode != AuthWpa && !b.ieee8021X) || (if group then b.portSecured else s.entries[r.wcid].portSecured))
  }

  datatype Place = InMcast | InPs | InRing

  // The queue the packet belongs in.
  function PlaceOf(s: Ap, r: SendReq): Place
    requires Shape(s) && ReqOk(r)
  {
    var e := s.entries[r.wcid];
    if r.group && s.fAnyStationInPsm then InMcast
    else if e.kind == EntryClient && e.sst == Assoc && e.psMode == PwrSave then InPs
    else InRing
  }

  predicate HasRoom(s: Ap, r: SendReq)
    requires Shape(s) && ReqOk(r)
  {
    match PlaceOf(s, r)
    case InMcast => |s.mcastPsQueue| < 32
    case InPs => |s.entries[r.wcid].psQueue| < 128
    case InRing => |s.txSwQueue[r.qid]| < s.txSwQMaxLen
  }

  predicate Carried(s: Ap, r: SendReq)
    requires Shape(s) && ReqOk(r)
  {
    Sendable(s, r) && HasRoom(s, r)
  }

  // The BSS and the AID by which the beacons announce a packet that has to wait.
  function Announcement(s: Ap, r: SendReq): (a: (nat, nat))
    requires Shape(s) && ReqOk(r)
    ensures a.0 < |s.bss| && a.1 < MAX_LEN_OF_MAC_TABLE
  {
    (if r.wcid != 0 || PlaceOf(s, r) == InPs then s.entries[r.wcid].apidx else if r.apidx < |s.bss| then r.apidx else 0,
     if PlaceOf(s, r) == InMcast then 0 else r.wcid)
  }

  // The state with the packet in its place.
  function Placed(s: Ap, r: SendReq, p: Packet): Ap
    requires Shape(s) && ReqOk(r)
  {
    match PlaceOf(s, r)
    case InMcast => s.(mcastPsQueue := [p] + s.mcastPsQueue)
    case InPs => s.(entries := s.entries[r.wcid := s.entries[r.wcid].(psQueue := s.entries[r.wcid].psQueue + [p])])
    case InRing => s.(txSwQueue := s.txSwQueue[r.qid := s.txSwQueue[r.qid] + [p]])
  }

  /** A packet given to APSendPacket is released at once if and only if it is not sendable or its queue is full; otherwise it
      takes the last place of its queue (the first of the multicast queue, which is filled from the head), and is announced
      if it has to wait.  Nothing else changes. */
  lemma SendFate(s: Ap, r: SendReq)
    requires Shape(s) && ReqOk(r)
    ensures var t, p := Send(s, r), Packet(|s.given|, r.wcid); var s' := s.(given := s.given + [p]);
            if !Carried(s, r) then t == s'.(released := s.released + [p])
            else
              var (b, aid) := Announcement(s, r);
              var tim := TimBitSet(s.bss[b].timBitmaps, aid);
              t == Placed(s', r, p).(bss := if PlaceOf(s, r) == InRing then s.bss else s.bss[b := s.bss[b].(timBitmaps := tim)])
  {
    hide TimBitSet;
  }

  // Steps that are not meant to drop packets, given the state they start from.
  predicate Harmless(s: Ap, e: Event)
    requires Enabled(s, e)
  {
    match e
    case EvSend(r) => Carried(s, r)
    case EvRxData(v, _, _) => v < MAX_LEN_OF_MAC_TABLE ==> s.entries[v].sst == Assoc
    case EvPsPoll(_, _) => true
    case EvRxAction(_, _, _) => true
    case EvAssoc(_) => true
    case EvDtim => true
    case EvTxStatus(_, _) => true
    case EvDequeue(_, ok) => ok
    case _ => false
  }

  lemma HarmlessStep(s: Ap, e: Event)
    requires Enabled(s, e) && Harmless(s, e)
    ensures Step(s, e).released == s.released
  {
    hide HandlePsPoll, PsIndicate, Send, Dtim, AssocReq, Lookup, Carried;
    match e
    case EvSend(r) => SendFate(s, r);
    case EvPsPoll(aid, a) => if aid < MAX_LEN_OF_MAC_TABLE { PsPollRings(s, a, aid, false); }
    case EvRxData(v, a, psm) => PsIndicateRings(s, a, v, psm);
    case EvRxAction(v, a, psm) => PsIndicateRings(s, a, v, psm);
    case EvDtim => DtimRings(s);
    case EvAssoc(f) => AssocRings(s, f);
    case _ =>
  }

  predicate HarmlessRun(s: Ap, es: seq<Event>)
    requires Run(s, es)
    decreases es
  {
    es == [] || (Harmless(s, es[0]) && HarmlessRun(Step(s, es[0]), es[1..]))
  }

  lemma {:induction false} HarmlessReleases(s: Ap, es: seq<Event>)
    requires Run(s, es) && HarmlessRun(s, es)
    ensures Exec(s, es).released == s.released
    decreases es
  {
    if es != [] {
      HarmlessStep(s, es[0]);
      HarmlessReleases(Step(s, es[0]), es[1..]);
    }
  }

  // ---------- over whole runs ----------

  lemma SendRings(s: Ap, r: SendReq)
    requires Shape(s) && ReqOk(r)
    ensures s.released <= Send(s, r).released
  {
    hide Carried, PlaceOf, TimBitSet, Announcement;
    SendFate(s, r);
  }

  lemma StepReleases(s: Ap, e: Event)
    requires Enabled(s, e) && Buffered(s)
    ensures s.released <= Step(s, e).released
  {
    hide Step, Send, RingsKept, Buffered;
    match e
    case EvSend(r) => SendStep(s, r); SendRings(s, r);
    case EvDequeue(q, ok) => DequeueStep(s, q, ok);
    case _ => StepRings(s, e); RingsKeepReleased(s, Step(s, e));
  }

  lemma RingsKeepReleased(s: Ap, t: Ap)
    requires RingsKept(s, t)
    ensures s.released <= t.released
  {
  }

  lemma {:induction false} RunReleases(s: Ap, es: seq<Event>)
    requires Run(s, es) && Buffered(s)
    ensures s.released <= Exec(s, es).released
    decreases es
  {
    hide SlotOk;
    if es != [] {
      StepReleases(s, es[0]);
      StepBuffered(s, es[0]);
      RunReleases(Step(s, es[0]), es[1..]);
    }
  }

  lemma {:induction false} TxCountAtLeast(queues: seq<seq<Packet>>, n: nat, q: nat, p: Packet)
    requires q < n <= |queues|
    ensures Count(queues[q], p) <= TxCount(queues, n, p)
  {
    if q < n - 1 {
      TxCountAtLeast(queues, n - 1, q, p);
    }
  }

  // The packet waits nowhere and the hardware has never got it.
  predicate Nowhere(s: Ap, p: Packet) {
    && (forall q :: 0 <= q < |s.hw| ==> p !in s.hw[q])
    && (forall q :: 0 <= q < |s.txSwQueue| ==> p !in s.txSwQueue[q])
    && (forall i :: 0 <= i < |s.entries| ==> p !in s.entries[i].psQueue)
    && p !in s.mcastPsQueue
  }

  lemma ReleasedIsNowhere(s: Ap, p: Packet)
    requires Conserved(s) && p in s.released
    ensures Nowhere(s, p)
  {
    hide Buffered;
    OnceOnly(s.given, p);
    forall q | 0 <= q < |s.hw|
      ensures p !in s.hw[q]
    {
      TxCountAtLeast(s.hw, |s.hw|, q, p);
    }
    forall q | 0 <= q < |s.txSwQueue|
      ensures p !in s.txSwQueue[q]
    {
      TxCountAtLeast(s.txSwQueue, |s.txSwQueue|, q, p);
    }
    forall i | 0 <= i < |s.entries|
      ensures p !in s.entries[i].psQueue
    {
      PsCountAtLeast(s.entries, |s.entries|, i, p);
    }
  }

  /** A packet that is not sendable, or finds its queue full, when it is given to APSendPacket is released and never gets to
      the hardware, whatever happens afterwards.  In particular ordinary data does not pass a port that is not open. */
  lemma NotCarriedNeverSent(s0: Ap, a: seq<Event>, r: SendReq, b: seq<Event>)
    requires Init(s0) && Run(s0, a) && Run(Exec(s0, a), [EvSend(r)] + b)
    requires ReqOk(r) && !Carried(Exec(s0, a), r)
    ensures var p, t := Packet(|Exec(s0, a).given|, r.wcid), Exec(Exec(s0, a), [EvSend(r)] + b);
            p in t.released && Nowhere(t, p)
  {
    hide Step, Enabled, Carried, Conserved, Init, Nowhere, Send;
    var s := Exec(s0, a);
    InitConserved(s0);
    RunConserves(s0, a);
    assert ([EvSend(r)] + b)[1..] == b;
    var s1 := Step(s, EvSend(r));
    StepConserves(s, EvSend(r));
    RunConserves(s1, b);
    SendStep(s, r);
    SendFate(s, r);
    ConservedBuffered(s1);
    RunReleases(s1, b);
    var p := Packet(|s.given|, r.wcid);
    assert Exec(s1, b).released[|s.released|] == s1.released[|s.released|] == p;
    ReleasedIsNowhere(Exec(s1, b), p);
  }

  lemma ConservedBuffered(s: Ap)
    requires Conserved(s)
    ensures Buffered(s)
  {
  }

  lemma FreshPacket(s: Ap, p: Packet)
    requires Conserved(s) && p.no == |s.given|
    ensures p !in s.released
  {
    hide Buffered;
    OnceOnly(s.given, p);
  }

  lemma {:induction false} NowhereUncounted(entries: seq<Entry>, queues: seq<seq<Packet>>, n: nat, m: nat, p: Packet)
    requires n <= |entries| && m <= |queues|
    requires forall i :: 0 <= i < |entries| ==> p !in entries[i].psQueue
    requires forall q :: 0 <= q < |queues| ==> p !in queues[q]
    ensures PsCount(entries, n, p) == 0 && TxCount(queues, m, p) == 0
  {
    if n > 0 {
      NowhereUncounted(entries, queues, n - 1, m, p);
    } else if m > 0 {
      NowhereUncounted(entries, queues, n, m - 1, p);
    }
  }

  lemma Somewhere(s: Ap, p: Packet)
    requires Conserved(s) && p in s.given && p !in s.released
    ensures !Nowhere(s, p)
  {
    hide Buffered;
    OnceOnly(s.given, p);
    if Nowhere(s, p) {
      NowhereUncounted(s.entries, s.txSwQueue, |s.entries|, |s.txSwQueue|, p);
      NowhereUncounted(s.entries, s.hw, |s.entries|, |s.hw|, p);
    }
  }

  lemma {:induction false} RunGiven(s: Ap, es: seq<Event>)
    requires Run(s, es) && Conserved(s)
    ensures s.given <= Exec(s, es).given
    decreases es
  {
    hide Conserved, Step, Buffered;
    if es != [] {
      ConservedBuffered(s);
      StepTotal(s, es[0], Packet(0, 0));
      StepConserves(s, es[0]);
      RunGiven(Step(s, es[0]), es[1..]);
    }
  }

  /** A packet that is sendable and finds room is not lost: while only harmless steps follow, nothing is released, and the packet
      waits in a queue or the hardware has got it. */
  lemma CarriedNotLost(s0: Ap, a: seq<Event>, r: SendReq, b: seq<Event>)
    requires Init(s0) && Run(s0, a) && Run(Exec(s0, a), [EvSend(r)] + b)
    requires ReqOk(r) && HarmlessRun(Exec(s0, a), [EvSend(r)] + b)
    ensures var p, t := Packet(|Exec(s0, a).given|, r.wcid), Exec(Exec(s0, a), [EvSend(r)] + b);
            t.released == Exec(s0, a).released && !Nowhere(t, p)
  {
    hide Conserved, Init, Step, Enabled, HarmlessRun, Nowhere, Send;
    var s := Exec(s0, a);
    var p := Packet(|s.given|, r.wcid);
    InitConserved(s0);
    RunConserves(s0, a);
    FreshPacket(s, p);
    var es := [EvSend(r)] + b;
    assert es[1..] == b;
    HarmlessReleases(s, es);
    RunConserves(s, es);
    var s1 := Step(s, EvSend(r));
    StepConserves(s, EvSend(r));
    SendStep(s, r);
    ConservedBuffered(s);
    StepTotal(s, EvSend(r), p);
    RunGiven(s1, b);
    assert Exec(s1, b).given[|s.given|] == s1.given[|s.given|] == p;
    Somewhere(Exec(s, es), p);
  }
}
