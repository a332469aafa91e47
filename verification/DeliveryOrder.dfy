/** Delivery order: the packets for a station that the best-effort ring of the hardware has got, followed by those that
    wait in TxSwQueue[QID_AC_BE] and those in its power-save queue, stay in the order in which they were sent, as long
    as no authentication or association frame arrives from the station while packets are buffered for it. */
module DeliveryOrder {
  import opened Types
  import opened MacTable
  import opened Steps
  import opened PowerSave
  import opened Wrappers

  // The packets for slot `w` in a queue, in order.
  function From(q: seq<Packet>, w: nat): seq<Packet> {
    if q == [] then [] else (if q[0].dest == w then [q[0]] else []) + From(q[1..], w)
  }

  // What is on its way to the station in slot `w`, first to be sent first.
  function Waiting(s: Ap, w: nat): seq<Packet>
    requires Shape(s) && w < MAX_LEN_OF_MAC_TABLE
  {
    From(s.txSwQueue[QID_AC_BE], w) + s.entries[w].psQueue
  }

  // What the best-effort ring of the hardware has got for the station, followed by what is on its way.
  function Pipe(s: Ap, w: nat): seq<Packet>
    requires Shape(s) && w < MAX_LEN_OF_MAC_TABLE
  {
    From(s.hw[QID_AC_BE], w) + Waiting(s, w)
  }

  predicate InSendOrder(q: seq<Packet>) {
    forall i, j :: 0 <= i < j < |q| ==> q[i].no < q[j].no
  }

  predicate AllBelow(q: seq<Packet>, n: nat) {
    forall i :: 0 <= i < |q| ==> q[i].no < n
  }

  // Packets are buffered for the station only while it sleeps.
  predicate Settled(s: Ap, w: nat)
    requires Shape(s) && w < MAX_LEN_OF_MAC_TABLE
  {
    s.entries[w].psQueue == [] || Sleeping(s.entries[w])
  }

  predicate Tracks(s: Ap, w: nat)
    requires Shape(s) && w < MAX_LEN_OF_MAC_TABLE
  {
    InSendOrder(Pipe(s, w)) && AllBelow(Pipe(s, w), |s.given|) && Settled(s, w)
  }

  // An authentication or association frame of a station that has packets waiting.
  predicate Disturbs(s: Ap, e: Event, w: nat)
    requires Shape(s) && w < MAX_LEN_OF_MAC_TABLE
  {
    && s.entries[w].psQueue != []
    && ((e.EvAuth? && e.frame.addr2 == s.entries[w].addr) || (e.EvAssoc? && e.assoc.addr2 == s.entries[w].addr))
  }

  // ---------- filtering ----------

  lemma {:induction false} FromAppend(a: seq<Packet>, b: seq<Packet>, w: nat)
    ensures From(a + b, w) == From(a, w) + From(b, w)
  {
    if a == [] {
      assert a + b == b;
    } else {
      var h := if a[0].dest == w then [a[0]] else [];
      FromAppend(a[1..], b, w);
      assert (a + b)[1..] == a[1..] + b;
      Joined(h, From(a[1..], w), From(b, w));
    }
  }

  lemma {:induction false} FromAll(q: seq<Packet>, d: nat, w: nat)
    requires forall k :: 0 <= k < |q| ==> q[k].dest == d
    ensures From(q, w) == if d == w then q else []
  {
    if q != [] {
      FromAll(q[1..], d, w);
    }
  }

  // A step that leaves both halves of the pipe alone, or cuts off its end, keeps the station tracked.
  lemma Kept(s: Ap, t: Ap, w: nat)
    requires Shape(s) && Shape(t) && w < MAX_LEN_OF_MAC_TABLE && Tracks(s, w)
    requires Pipe(t, w) <= Pipe(s, w) && |s.given| <= |t.given| && Settled(t, w)
    ensures Tracks(t, w)
  {
  }

  // The slot keeps its queue and the fields that decide whether the station sleeps.
  predicate SlotKept(s: Ap, t: Ap, w: nat)
    requires Shape(s) && Shape(t) && w < MAX_LEN_OF_MAC_TABLE
  {
    var e, f := s.entries[w], t.entries[w];
    && t.txSwQueue == s.txSwQueue && t.hw == s.hw && t.given == s.given
    && (f.psQueue == [] || (f.psQueue == e.psQueue && f.psMode == e.psMode && f.kind == e.kind && f.sst == e.sst))
  }

  lemma SlotKeptTracks(s: Ap, t: Ap, w: nat)
    requires Shape(s) && Shape(t) && w < MAX_LEN_OF_MAC_TABLE && Tracks(s, w) && SlotKept(s, t, w)
    ensures Tracks(t, w)
  {
    Kept(s, t, w);
  }

  // ---------- the handlers ----------

  lemma DeleteTracks(s: Ap, v: nat, addr: Mac, w: nat)
    requires Shape(s) && w < MAX_LEN_OF_MAC_TABLE && Tracks(s, w)
    ensures Tracks(Delete(s, v, addr), w)
  {
    SlotKeptTracks(s, Delete(s, v, addr), w);
  }

  // A newer packet at the end keeps the order.
  lemma OrderedAppend(q: seq<Packet>, p: Packet)
    requires InSendOrder(q) && AllBelow(q, p.no)
    ensures InSendOrder(q + [p]) && AllBelow(q + [p], p.no + 1)
  {
  }

  // Nothing but the pipe matters once the power-save queues and the log are the same.
  lemma PipeTracks(s: Ap, t: Ap, w: nat)
    requires Shape(s) && Shape(t) && w < MAX_LEN_OF_MAC_TABLE && t.entries == s.entries && Settled(s, w)
    requires InSendOrder(Pipe(t, w)) && AllBelow(Pipe(t, w), |t.given|)
    ensures Tracks(t, w)
  {
    hide Pipe, InSendOrder, AllBelow;
  }

  lemma EnqueueTracks(s: Ap, w: nat, r: SendReq, p: Packet)
    requires Shape(s) && 1 <= w < MAX_LEN_OF_MAC_TABLE && ReqOk(r) && p.dest == r.wcid
    requires InSendOrder(Pipe(s, w)) && AllBelow(Pipe(s, w), p.no) && |s.given| == p.no + 1
    requires r.wcid == w ==> s.entries[w].psQueue == []
    requires Settled(s, w)
    ensures Tracks(EnqueueTx(s, r.qid, [p]), w)
  {
    hide Pipe, Settled, Tracks;
    var t := EnqueueTx(s, r.qid, [p]);
    EnqueuePipe(s, w, r, p);
    OrderedAppend(Pipe(s, w), p);
    assert Pipe(s, w) + [] == Pipe(s, w);
    PipeTracks(s, t, w);
  }

  lemma EnqueuePipe(s: Ap, w: nat, r: SendReq, p: Packet)
    requires Shape(s) && w < MAX_LEN_OF_MAC_TABLE && ReqOk(r) && p.dest == r.wcid
    requires r.wcid == w ==> s.entries[w].psQueue == []
    ensures Pipe(EnqueueTx(s, r.qid, [p]), w) == Pipe(s, w) + if r.qid == QID_AC_BE && r.wcid == w then [p] else []
  {
    hide From;
    FromAppend(s.txSwQueue[QID_AC_BE], [p], w);
    FromAll([p], r.wcid, w);
    var x := if r.qid == QID_AC_BE && r.wcid == w then [p] else [];
    assert Waiting(EnqueueTx(s, r.qid, [p]), w) == Waiting(s, w) + x;
    LongerPipe(s, EnqueueTx(s, r.qid, [p]), w, x);
  }

  // While the hardware gets nothing, the pipe changes as its waiting part does.
  lemma LongerPipe(s: Ap, t: Ap, w: nat, x: seq<Packet>)
    requires Shape(s) && Shape(t) && w < MAX_LEN_OF_MAC_TABLE && t.hw == s.hw && Waiting(t, w) == Waiting(s, w) + x
    ensures Pipe(t, w) == Pipe(s, w) + x
  {
    hide From, Waiting;
    Joined(From(s.hw[QID_AC_BE], w), Waiting(s, w), x);
  }

  lemma InsertPsQueueTracks(s: Ap, w: nat, p: Packet)
    requires Shape(s) && w < MAX_LEN_OF_MAC_TABLE && Sleeping(s.entries[w])
    requires InSendOrder(Pipe(s, w)) && AllBelow(Pipe(s, w), p.no) && |s.given| == p.no + 1
    ensures Tracks(InsertPsQueue(s, p, w), w)
  {
    hide From;
    var t := InsertPsQueue(s, p, w);
    if |s.entries[w].psQueue| < MAX_PACKETS_IN_PS_QUEUE {
      assert Waiting(t, w) == Waiting(s, w) + [p];
      LongerPipe(s, t, w, [p]);
      OrderedAppend(Pipe(s, w), p);
    }
  }

  // Whatever happens to a packet for another slot leaves `w` alone.
  lemma StillTracks(s: Ap, p: Packet, w: nat)
    requires Shape(s) && w < MAX_LEN_OF_MAC_TABLE && Settled(s, w)
    requires InSendOrder(Pipe(s, w)) && AllBelow(Pipe(s, w), p.no) && |s.given| == p.no + 1
    ensures Tracks(s, w)
  {
  }

  // A settled station that is awake has an empty power-save queue.
  lemma NothingWaits(s: Ap, v: nat, w: nat)
    requires Shape(s) && w < MAX_LEN_OF_MAC_TABLE && v < MAX_LEN_OF_MAC_TABLE && Settled(s, w) && !Sleeping(s.entries[v])
    ensures v == w ==> s.entries[w].psQueue == []
  {
  }

  lemma DeliverTracks(s: Ap, r: SendReq, p: Packet, w: nat)
    requires Shape(s) && 1 <= w < MAX_LEN_OF_MAC_TABLE && ReqOk(r) && p.dest == r.wcid
    requires r.group ==> r.wcid == MCAST_WCID
    requires InSendOrder(Pipe(s, w)) && AllBelow(Pipe(s, w), p.no) && |s.given| == p.no + 1
    requires Settled(s, w)
    ensures Tracks(Deliver(s, r, p), w)
  {
    hide InsertPsQueue, EnqueueTx, Pipe, InSendOrder, TimBitSet, TimBit;
    StillTracks(s, p, w);
    if r.group && s.fAnyStationInPsm {
      SlotKeptTracks(s, Deliver(s, r, p), w);
    } else if Sleeping(s.entries[r.wcid]) {
      if r.wcid == w {
        InsertPsQueueTracks(s, w, p);
      } else {
        InsertElsewhereTracks(s, r.wcid, p, w);
      }
    } else {
      NothingWaits(s, r.wcid, w);
      EnqueueTracks(s, w, r, p);
      SlotKeptTracks(s, Release(s, [p]), w);
    }
  }

  lemma InsertElsewhereTracks(s: Ap, v: nat, p: Packet, w: nat)
    requires Shape(s) && v < MAX_LEN_OF_MAC_TABLE && w < MAX_LEN_OF_MAC_TABLE && v != w && Tracks(s, w)
    ensures Tracks(InsertPsQueue(s, p, v), w)
  {
    SlotKeptTracks(s, InsertPsQueue(s, p, v), w);
  }

  lemma SendTracks(s: Ap, r: SendReq, w: nat)
    requires Shape(s) && 1 <= w < MAX_LEN_OF_MAC_TABLE && Tracks(s, w)
    requires ReqOk(r) && (r.group ==> r.wcid == MCAST_WCID)
    ensures Tracks(Send(s, r), w)
  {
    hide Deliver;
    var p := PacketOf(s, r);
    var s1 := Given(s, p);
    assert Pipe(s1, w) == Pipe(s, w);
    DeliverTracks(s1, r, p, w);
    SlotKeptTracks(s1, Release(s1, [p]), w);
  }

  lemma MoveFrom(a: seq<Packet>, moved: seq<Packet>, v: nat, w: nat)
    requires forall k :: 0 <= k < |moved| ==> moved[k].dest == v
    ensures v == w ==> From(a + moved, w) == From(a, w) + moved
    ensures v != w ==> From(a + moved, w) == From(a, w)
  {
    hide From;
    FromAppend(a, moved, w);
    FromAll(moved, v, w);
    assert From(a, w) + [] == From(a, w);
  }

  // Moving a prefix of a power-save queue to the transmit queue changes no station's line.
  lemma MoveWaiting(s: Ap, v: nat, k: nat, w: nat)
    requires Buffered(s) && v < MAX_LEN_OF_MAC_TABLE && w < MAX_LEN_OF_MAC_TABLE && k <= |s.entries[v].psQueue|
    ensures var q := s.entries[v].psQueue;
            From(s.txSwQueue[QID_AC_BE] + q[..k], w) + (if v == w then q[k..] else s.entries[w].psQueue) == Waiting(s, w)
  {
    hide From;
    assert SlotOk(s, v);
    var q := s.entries[v].psQueue;
    MoveFrom(s.txSwQueue[QID_AC_BE], q[..k], v, w);
    assert q == q[..k] + q[k..];
    Joined(From(s.txSwQueue[QID_AC_BE], w), q[..k], q[k..]);
  }

  lemma ReleaseTracks(s: Ap, v: nat, w: nat)
    requires Buffered(s) && v < MAX_LEN_OF_MAC_TABLE && w < MAX_LEN_OF_MAC_TABLE && Tracks(s, w)
    ensures Tracks(ReleaseOne(s, v), w)
    ensures Tracks(ReleaseAll(s, v), w)
  {
    hide ReleaseOne, ReleaseAll, Pipe, SlotOk;
    ReleasePipe(s, v, w);
    KeptPipe(s, ReleaseAll(s, v), w);
    KeptPipe(s, ReleaseOne(s, v), w);
  }

  // Moving packets of a station does not change the order in which they will be delivered.
  lemma ReleasePipe(s: Ap, v: nat, w: nat)
    requires Buffered(s) && v < MAX_LEN_OF_MAC_TABLE && w < MAX_LEN_OF_MAC_TABLE
    ensures var t := ReleaseAll(s, v); Pipe(t, w) == Pipe(s, w) && t.given == s.given && (Settled(s, w) ==> Settled(t, w))
    ensures var t := ReleaseOne(s, v); Pipe(t, w) == Pipe(s, w) && t.given == s.given && (Settled(s, w) ==> Settled(t, w))
  {
    hide From, SlotOk;
    var q := s.entries[v].psQueue;
    MoveWaiting(s, v, |q|, w);
    assert q[..|q|] == q && q[|q|..] == [];
    if q != [] {
      MoveWaiting(s, v, 1, w);
      assert q[..1] == [q[0]];
    }
  }

  lemma KeptPipe(s: Ap, t: Ap, w: nat)
    requires Shape(s) && Shape(t) && w < MAX_LEN_OF_MAC_TABLE && Tracks(s, w)
    requires Pipe(t, w) == Pipe(s, w) && t.given == s.given && Settled(t, w)
    ensures Tracks(t, w)
  {
  }

  lemma ClearIfEmptyTracks(s: Ap, v: nat, w: nat)
    requires Shape(s) && v < MAX_LEN_OF_MAC_TABLE && w < MAX_LEN_OF_MAC_TABLE && Tracks(s, w)
    ensures Tracks(ClearIfEmpty(s, v), w)
  {
    SlotKeptTracks(s, ClearIfEmpty(s, v), w);
  }

  // Setting fields that do not decide whether the station sleeps.
  lemma SetEntryTracks(s: Ap, v: nat, e: Entry, w: nat)
    requires Shape(s) && v < MAX_LEN_OF_MAC_TABLE && w < MAX_LEN_OF_MAC_TABLE && Tracks(s, w)
    requires e.apidx < |s.bss| && e.psQueue == s.entries[v].psQueue && e.kind == s.entries[v].kind
    requires e.psMode == s.entries[v].psMode && e.sst == s.entries[v].sst
    ensures Tracks(SetEntry(s, v, e), w)
  {
    SlotKeptTracks(s, SetEntry(s, v, e), w);
  }

  lemma HandlePsPollTracks(s: Ap, addr: Mac, aid: nat, isActive: bool, w: nat)
    requires Buffered(s) && aid < MAX_LEN_OF_MAC_TABLE && w < MAX_LEN_OF_MAC_TABLE && Tracks(s, w)
    ensures Tracks(HandlePsPoll(s, addr, aid, isActive), w)
  {
    assert Shape(s);
    hide Buffered, Tracks, ReleaseAll, ReleaseOne, ClearIfEmpty;
    var s1 := SetEntry(s, aid, s.entries[aid].(continueTxFailCnt := 0));
    SetEntryBuffered(s, aid, s.entries[aid].(continueTxFailCnt := 0));
    SetEntryTracks(s, aid, s.entries[aid].(continueTxFailCnt := 0), w);
    ReleaseTracks(s1, aid, w);
    ClearIfEmptyTracks(if isActive then ReleaseAll(s1, aid) else ReleaseOne(s1, aid), aid, w);
  }

  // A station that wakes up or falls asleep.  On waking its whole queue is moved.
  lemma PsIndicateTracks(s: Ap, addr: Mac, v: nat, psm: PsMode, w: nat)
    requires Buffered(s) && w < MAX_LEN_OF_MAC_TABLE && Tracks(s, w) && FrameFrom(s, v, addr)
    ensures Tracks(PsIndicate(s, addr, v, psm), w)
  {
    if v < MAX_LEN_OF_MAC_TABLE {
      var e := s.entries[v].(noDataIdleCount := 0, psMode := psm);
      var s1 := SetEntry(s, v, e);
      SetEntryBuffered(s, v, e);
      if v != w {
        SlotKeptTracks(s, s1, w);
        HandlePsPollTracks(s1, addr, v, true, w);
      } else if s.entries[v].psMode == PwrSave && psm == PwrActive {
        WakeUpTracks(s1, addr, v);
      } else {
        SlotKeptTracks(s, s1, w);
      }
    }
  }

  lemma WakeUpTracks(s: Ap, addr: Mac, w: nat)
    requires Buffered(s) && w < MAX_LEN_OF_MAC_TABLE && s.entries[w].addr == addr
    requires InSendOrder(Pipe(s, w)) && AllBelow(Pipe(s, w), |s.given|)
    ensures Tracks(HandlePsPoll(s, addr, w, true), w)
    ensures HandlePsPoll(s, addr, w, true).entries[w].psQueue == []
  {
    assert SlotOk(s, w);
    var q := s.entries[w].psQueue;
    FromAppend(s.txSwQueue[QID_AC_BE], q, w);
    FromAll(q, w, w);
    assert Waiting(HandlePsPoll(s, addr, w, true), w) == Waiting(s, w);
  }

  lemma DeleteSlotTracks(s: Ap, v: nat, w: nat)
    requires Shape(s) && w < MAX_LEN_OF_MAC_TABLE && Tracks(s, w)
    ensures Tracks(DeleteSlot(s, v), w)
    ensures s.entries[w].psQueue == [] ==> DeleteSlot(s, v).entries[w].psQueue == []
  {
    if v < |s.entries| {
      DeleteTracks(s, v, s.entries[v].addr, w);
    }
  }

  lemma InsertTracks(s: Ap, addr: Mac, b: nat, w: nat)
    requires Buffered(s) && b < |s.bss| && w < MAX_LEN_OF_MAC_TABLE && Tracks(s, w)
    ensures Tracks(Insert(s, addr, b).0, w)
    ensures Insert(s, addr, b).1 == w ==> Insert(s, addr, b).0.entries[w].psQueue == []
  {
    SlotKeptTracks(s, Insert(s, addr, b).0, w);
  }

  // Setting the state of a slot other than `w`, or of `w` while nothing is buffered there.
  lemma SetSstTracks(s: Ap, v: nat, sst: Sst, w: nat)
    requires Shape(s) && v < MAX_LEN_OF_MAC_TABLE && w < MAX_LEN_OF_MAC_TABLE && Tracks(s, w)
    requires v != w || s.entries[w].psQueue == []
    ensures Tracks(SetSst(s, v, sst), w)
  {
    SlotKeptTracks(s, SetSst(s, v, sst), w);
  }

  // The stored challenge does not matter.
  lemma AuxTracks(s: Ap, addr: Mac, nonce: Challenge, w: nat)
    requires Shape(s) && w < MAX_LEN_OF_MAC_TABLE && Tracks(s, w)
    ensures Tracks(s.(auxAddr := addr, auxChallenge := nonce), w)
  {
    SlotKeptTracks(s, s.(auxAddr := addr, auxChallenge := nonce), w);
  }

  lemma AuthReqAtTracks(s: Ap, v: nat, b: nat, f: AuthFrame, nonce: Challenge, w: nat)
    requires Buffered(s) && v <= |s.entries| && b < |s.bss| && w < MAX_LEN_OF_MAC_TABLE && Tracks(s, w)
    requires v != w || s.entries[w].psQueue == []
    ensures Tracks(AuthReqAt(s, v, b, f, nonce), w)
  {
    hide Tracks, Insert, DeleteSlot, AclPasses, SetSst, SlotOk, AcceptsOpen, AcceptsKey;
    DeleteSlotTracks(s, v, w);
    InsertTracks(s, f.addr2, b, w);
    var (s1, u) := Ensure(s, v, f.addr2, b);
    if u < |s1.entries| {
      SetSstTracks(s1, u, Auth, w);
      SetSstTracks(s1, u, NotAuth, w);
      AuxTracks(SetSst(s1, u, NotAuth), f.addr2, nonce, w);
    }
  }

  lemma AuthReqTracks(s: Ap, f: AuthFrame, nonce: Challenge, w: nat)
    requires Buffered(s) && w < MAX_LEN_OF_MAC_TABLE && Tracks(s, w)
    requires f.addr2 != s.entries[w].addr || s.entries[w].psQueue == []
    ensures Tracks(AuthReq(s, f, nonce), w)
  {
    var b := FindBss(s.bss, f.addr1);
    if b < |s.bss| && f.devUp {
      var v0 := Lookup(s, f.addr2);
      RehomeBuffered(s, v0, f.addr1);
      DeleteSlotTracks(s, v0, w);
      hide Buffered, Tracks, DeleteSlot, AuthReqAt;
      var (s1, v) := Rehome(s, v0, f.addr1);
      AuthReqAtTracks(s1, v, b, f, nonce, w);
    }
  }

  lemma AuthConfirmTracks(s: Ap, f: AuthFrame, w: nat)
    requires Shape(s) && w < MAX_LEN_OF_MAC_TABLE && Tracks(s, w) && FrameFrom(s, f.wcid, f.addr2)
    requires f.addr2 != s.entries[w].addr || s.entries[w].psQueue == []
    ensures Tracks(AuthConfirm(s, f), w)
  {
    if f.wcid < MAX_LEN_OF_MAC_TABLE {
      DeleteSlotTracks(s, f.wcid, w);
      var (s1, v) := Rehome(s, f.wcid, f.addr1);
      DeleteSlotTracks(s1, v, w);
      if v < |s1.entries| {
        SetSstTracks(s1, v, Auth, w);
      }
    }
  }

  lemma AssocTracks(s: Ap, f: AssocFrame, w: nat)
    requires Shape(s) && w < MAX_LEN_OF_MAC_TABLE && Tracks(s, w)
    requires f.addr2 != s.entries[w].addr || s.entries[w].psQueue == []
    ensures Tracks(AssocReq(s, f), w)
  {
    hide Tracks, AclRejectBranch;
    SlotKeptTracks(s, AssocReq(s, f), w);
  }

  lemma {:induction false} UpdateAclTracks(s: Ap, b: nat, i: nat, w: nat)
    requires Shape(s) && b < |s.bss| && i <= MAX_LEN_OF_MAC_TABLE && w < MAX_LEN_OF_MAC_TABLE && Tracks(s, w)
    ensures Tracks(UpdateAclFrom(s, b, i), w)
    decreases MAX_LEN_OF_MAC_TABLE - i
  {
    if i < MAX_LEN_OF_MAC_TABLE {
      DeleteTracks(s, i, s.entries[i].addr, w);
      UpdateAclTracks(Delete(s, i, s.entries[i].addr), b, i + 1, w);
      UpdateAclTracks(s, b, i + 1, w);
    }
  }

  lemma AclTracks(s: Ap, b: nat, x: Bss, w: nat)
    requires Shape(s) && b < |s.bss| && |x.timBitmaps| == WLAN_MAX_NUM_OF_TIM
    requires w < MAX_LEN_OF_MAC_TABLE && Tracks(s, w)
    ensures Tracks(UpdateAcl(SetBss(s, b, x), b), w)
  {
    SlotKeptTracks(s, SetBss(s, b, x), w);
    UpdateAclTracks(SetBss(s, b, x), b, 0, w);
  }

  lemma KeepAliveTracks(s: Ap, i: nat, w: nat)
    requires Shape(s) && i < MAX_LEN_OF_MAC_TABLE && w < MAX_LEN_OF_MAC_TABLE && Tracks(s, w)
    ensures Tracks(KeepAlive(s, i), w)
  {
    SlotKeptTracks(s, KeepAlive(s, i), w);
  }

  lemma CollectTracks(s: Ap, i: nat, w: nat)
    requires Shape(s) && i < MAX_LEN_OF_MAC_TABLE && w < MAX_LEN_OF_MAC_TABLE && Tracks(s, w)
    ensures Tracks(CollectPsQueue(s, i), w)
  {
    hide Tracks, TimBitClear, TimBit;
    SlotKeptTracks(s, CollectPsQueue(s, i), w);
  }

  // A slot's turn in the sweep leaves its queue alone or empties it.
  lemma SweepEntryTracks(s: Ap, i: nat, w: nat)
    requires Shape(s) && i < MAX_LEN_OF_MAC_TABLE && w < MAX_LEN_OF_MAC_TABLE && Tracks(s, w)
    ensures Tracks(SweepEntry(s, i), w)
  {
    hide Tracks, DeleteSlot, KeepAlive, CollectPsQueue;
    var e := Tick(s.entries[i]);
    var s1 := SetEntry(s, i, e);
    SlotKeptTracks(s, s1, w);
    DeleteSlotTracks(s1, i, w);
    var s1' := if e.psMode == PwrSave then s1.(fAnyStationInPsm := true) else s1;
    SlotKeptTracks(s1, s1', w);
    var s2 := KeepAlive(s1', i);
    KeepAliveTracks(s1', i, w);
    DeleteSlotTracks(s2, i, w);
    CollectTracks(s2, i, w);
    var s3 := CollectPsQueue(s2, i);
    SlotKeptTracks(s3, s3.(fAllStationAsRalink := false), w);
  }

  lemma {:induction false} SweepFromTracks(s: Ap, i: nat, w: nat)
    requires Shape(s) && i <= MAX_LEN_OF_MAC_TABLE && w < MAX_LEN_OF_MAC_TABLE && Tracks(s, w)
    ensures Tracks(SweepFrom(s, i), w)
    decreases MAX_LEN_OF_MAC_TABLE - i
  {
    if i < MAX_LEN_OF_MAC_TABLE {
      SweepEntryTracks(s, i, w);
      SweepFromTracks(SweepEntry(s, i), i + 1, w);
    }
  }

  lemma {:induction false} PortsKept(s: Ap, b: nat)
    requires Shape(s) && b <= |s.bss|
    ensures var t := PortsFrom(s, b); t.entries == s.entries && t.txSwQueue == s.txSwQueue && t.given == s.given && t.hw == s.hw
    decreases |s.bss| - b
  {
    if b < |s.bss| {
      PortsKept(SetBss(s, b, s.bss[b].(portSecured := AnyPortSecured(s, b))), b + 1);
    }
  }

  lemma {:induction false} BcmcKept(s: Ap, b: nat)
    requires Shape(s) && b <= |s.bss|
    ensures var t := BcmcClearFrom(s, b); t.entries == s.entries && t.txSwQueue == s.txSwQueue && t.given == s.given && t.hw == s.hw
    ensures BcmcClearFrom(s, b).more == s.more
    decreases |s.bss| - b
  {
    if b < |s.bss| {
      BcmcKept(TimClear(s, b, 0), b + 1);
    }
  }

  lemma CollectMcastKept(s: Ap)
    requires Shape(s)
    ensures var t := CollectMcast(s); t.entries == s.entries && t.txSwQueue == s.txSwQueue && t.given == s.given && t.hw == s.hw
  {
    BcmcKept(Release(s, s.mcastPsQueue).(mcastPsQueue := [], mcastPsQIdleCount := 0), 0);
  }

  lemma SweepTracks(s: Ap, w: nat)
    requires Shape(s) && w < MAX_LEN_OF_MAC_TABLE && Tracks(s, w)
    ensures Tracks(Sweep(s), w)
  {
    hide Tracks;
    var s0 := s.(fAnyStationInPsm := false, fAllStationAsRalink := true);
    SlotKeptTracks(s, s0, w);
    SweepFromTracks(s0, 1, w);
    var s1 := SweepFrom(s0, 1);
    PortsKept(s1, 0);
    CollectMcastKept(PortsFrom(s1, 0));
    SlotKeptTracks(s1, Sweep(s), w);
  }

  // Multicast packets overtake the station's packets but do not reorder them.
  lemma McastPipe(s: Ap, s1: Ap, p: Packet, w: nat)
    requires Shape(s) && Shape(s1) && 1 <= w < MAX_LEN_OF_MAC_TABLE && p.dest == MCAST_WCID
    requires s1.txSwQueue[QID_AC_BE] == [p] + s.txSwQueue[QID_AC_BE] && s1.entries == s.entries && s1.hw == s.hw
    ensures Pipe(s1, w) == Pipe(s, w)
  {
    FromAppend([p], s.txSwQueue[QID_AC_BE], w);
    FromAll([p], MCAST_WCID, w);
    assert [] + From(s.txSwQueue[QID_AC_BE], w) == From(s.txSwQueue[QID_AC_BE], w);
  }

  lemma {:induction false} DtimLoopTracks(s: Ap, count: nat, w: nat)
    requires Buffered(s) && 1 <= w < MAX_LEN_OF_MAC_TABLE && Tracks(s, w)
    ensures Tracks(DtimLoop(s, count), w)
    decreases |s.mcastPsQueue|
  {
    hide Pipe, SlotOk;
    if s.mcastPsQueue != [] {
      var p := s.mcastPsQueue[0];
      var s1 := s.(mcastPsQueue := s.mcastPsQueue[1..],
                   more := if count > 0 then s.more + {p} else s.more,
                   txSwQueue := s.txSwQueue[QID_AC_BE := [p] + s.txSwQueue[QID_AC_BE]]);
      McastPipe(s, s1, p, w);
      McastBuffered(s, s1);
      DtimLoopTracks(s1, count + 1, w);
    }
  }

  lemma DtimTracks(s: Ap, w: nat)
    requires Buffered(s) && 1 <= w < MAX_LEN_OF_MAC_TABLE && Tracks(s, w)
    ensures Tracks(Dtim(s), w)
  {
    DtimLoopTracks(s, 0, w);
    BcmcKept(DtimLoop(s, 0), 0);
    SlotKeptTracks(DtimLoop(s, 0), Dtim(s), w);
  }

  // One packet less in the middle keeps the order.
  lemma OrderedWithout(a: seq<Packet>, x: seq<Packet>, b: seq<Packet>, n: nat)
    requires InSendOrder(a + (x + b)) && AllBelow(a + (x + b), n)
    ensures InSendOrder(a + b) && AllBelow(a + b, n)
  {
    var long, short := a + (x + b), a + b;
    forall i, j | 0 <= i < j < |short|
      ensures short[i].no < short[j].no
    {
      var i' := if i < |a| then i else i + |x|;
      var j' := if j < |a| then j else j + |x|;
      assert short[i] == long[i'] && short[j] == long[j'];
    }
    forall i | 0 <= i < |short|
      ensures short[i].no < n
    {
      assert short[i] == long[if i < |a| then i else i + |x|];
    }
  }

  lemma FromHead(q: seq<Packet>, w: nat)
    requires q != []
    ensures From(q, w) == From([q[0]], w) + From(q[1..], w)
  {
    FromAppend([q[0]], q[1..], w);
    assert q == [q[0]] + q[1..];
  }

  // The head of the queue goes to the end of what the hardware has got, or is released.
  lemma DequeuePipe(s: Ap, qid: nat, ok: bool, w: nat)
    requires Shape(s) && qid < NUM_OF_TX_RING && w < MAX_LEN_OF_MAC_TABLE && s.txSwQueue[qid] != []
    ensures var t := Dequeue(s, qid, ok); var q := s.txSwQueue[QID_AC_BE];
            && t.given == s.given && t.entries == s.entries
            && (qid != QID_AC_BE || ok ==> Pipe(t, w) == Pipe(s, w))
            && (qid == QID_AC_BE && !ok ==>
                  && Pipe(s, w) == From(s.hw[QID_AC_BE], w) + (From([q[0]], w) + (From(q[1..], w) + s.entries[w].psQueue))
                  && Pipe(t, w) == From(s.hw[QID_AC_BE], w) + (From(q[1..], w) + s.entries[w].psQueue))
  {
    hide From;
    if qid == QID_AC_BE {
      var h, q, ps := s.hw[QID_AC_BE], s.txSwQueue[QID_AC_BE], s.entries[w].psQueue;
      FromHead(q, w);
      FromAppend(h, [q[0]], w);
      Joined(From([q[0]], w), From(q[1..], w), ps);
      Joined(From(h, w), From([q[0]], w), From(q[1..], w) + ps);
    }
  }

  lemma DequeueTracks(s: Ap, qid: nat, ok: bool, w: nat)
    requires Shape(s) && qid < NUM_OF_TX_RING && w < MAX_LEN_OF_MAC_TABLE && Tracks(s, w)
    ensures Tracks(Dequeue(s, qid, ok), w)
  {
    hide From, InSendOrder, AllBelow, Waiting, Pipe;
    var q := s.txSwQueue[qid];
    if q != [] {
      DequeuePipe(s, qid, ok, w);
      if qid == QID_AC_BE && !ok {
        OrderedWithout(From(s.hw[QID_AC_BE], w), From([q[0]], w), From(q[1..], w) + s.entries[w].psQueue, |s.given|);
      }
    }
  }

  // ---------- runs ----------

  lemma StepTracks(s: Ap, e: Event, w: nat)
    requires Enabled(s, e) && Buffered(s) && 1 <= w < MAX_LEN_OF_MAC_TABLE && Tracks(s, w)
    requires !Disturbs(s, e, w)
    ensures Tracks(Step(s, e), w)
  {
    hide Send, HandlePsPoll, PsIndicate, AuthReq, AuthConfirm, AssocReq, Delete, UpdateAcl, Sweep, Dtim, Dequeue, SlotOk,
         Tracks, ClassFilterPasses, Lookup;
    match e
    case EvSend(r) => SendTracks(s, r, w);
    case EvPsPoll(aid, a) => if aid < MAX_LEN_OF_MAC_TABLE { HandlePsPollTracks(s, a, aid, false, w); }
    case EvRxData(v, a, psm) => PsIndicateTracks(s, a, v, psm, w); DeleteTracks(s, v, a, w);
    case EvRxAction(v, a, psm) => PsIndicateTracks(s, a, v, psm, w);
    case EvAuth(f, nonce) => AuthReqTracks(s, f, nonce, w); AuthConfirmTracks(s, f, w);
    case EvAssoc(f) => AssocTracks(s, f, w);
    case EvDeauth(v, a) => DeleteTracks(s, v, a, w);
    case EvDisassoc(v, a) => DeleteTracks(s, v, a, w);
    case EvKickOut(a) => DeleteTracks(s, Lookup(s, a), a, w);
    case EvPolicy(b, policy) => AclTracks(s, b, s.bss[b].(policy := policy), w);
    case EvAclAdd(b, addrs) => AclTracks(s, b, s.bss[b].(acl := AclList.Add(s.bss[b].acl, addrs)), w);
    case EvAclDel(b, addrs) => AclTracks(s, b, s.bss[b].(acl := AclList.Del(s.bss[b].acl, addrs)), w);
    case EvAclClear(b) => AclTracks(s, b, s.bss[b].(acl := []), w);
    case EvSweep => SweepTracks(s, w);
    case EvDtim => DtimTracks(s, w);
    case EvDequeue(q, ok) => DequeueTracks(s, q, ok, w);
    case EvTxStatus(v, ok) => SlotKeptTracks(s, TxStatus(s, v, ok), w);
  }

  // No event of the run is an authentication or association frame of a station with packets waiting.
  predicate Undisturbed(s: Ap, es: seq<Event>, w: nat)
    requires Run(s, es) && w < MAX_LEN_OF_MAC_TABLE
    decreases es
  {
    es == [] || (!Disturbs(s, es[0], w) && Undisturbed(Step(s, es[0]), es[1..], w))
  }

  lemma {:induction false} RunTracks(s: Ap, es: seq<Event>, w: nat)
    requires Run(s, es) && Buffered(s) && 1 <= w < MAX_LEN_OF_MAC_TABLE && Tracks(s, w)
    requires Undisturbed(s, es, w)
    ensures Tracks(Exec(s, es), w)
    decreases es
  {
    if es != [] {
      StepBuffered(s, es[0]);
      StepTracks(s, es[0], w);
      RunTracks(Step(s, es[0]), es[1..], w);
    }
  }

  /** Over every run from an initial state in which no authentication or association frame finds packets
      waiting for its sender, the packets for each station that the best-effort ring of the hardware has got, followed by
      those in TxSwQueue[QID_AC_BE] and those in its power-save queue, are in the order in which they were sent. */
  lemma OrderKept(s: Ap, es: seq<Event>, w: nat)
    requires Init(s) && Run(s, es) && 1 <= w < MAX_LEN_OF_MAC_TABLE && Undisturbed(s, es, w)
    ensures InSendOrder(Pipe(Exec(s, es), w))
  {
    RunTracks(s, es, w);
  }

  // ---------- exactly when the order is lost ----------

  // A unicast best-effort packet to the station that is not dropped on the way to its queue.
  predicate Accepted(s: Ap, r: SendReq, w: nat)
    requires Shape(s)
  {
    && ReqOk(r) && r.wcid == w && !r.group && r.qid == QID_AC_BE && !Refused(s, r)
    && |s.txSwQueue[QID_AC_BE]| < s.txSwQMaxLen
  }

  /** The next packet accepted for a station keeps the order if and only if packets are buffered for the
      station only while it sleeps. */
  lemma NextPacketInOrder(s: Ap, r: SendReq, w: nat)
    requires Shape(s) && 1 <= w < MAX_LEN_OF_MAC_TABLE && Accepted(s, r, w)
    requires InSendOrder(Pipe(s, w)) && AllBelow(Pipe(s, w), |s.given|)
    ensures InSendOrder(Pipe(Send(s, r), w)) <==> Settled(s, w)
  {
    if Settled(s, w) {
      SendTracks(s, r, w);
    } else {
      var p := PacketOf(s, r);
      var q := s.entries[w].psQueue;
      FromAppend(s.txSwQueue[QID_AC_BE], [p], w);
      FromAll([p], w, w);
      var t := Send(s, r);
      assert t == EnqueueTx(Given(s, p), QID_AC_BE, [p]);
      var k := |From(s.hw[QID_AC_BE], w)| + |From(s.txSwQueue[QID_AC_BE], w)|;
      assert Pipe(t, w)[k] == p && Pipe(t, w)[k + 1] == q[0];
      assert Pipe(s, w)[k] == q[0];
    }
  }

  /** A successful association of a station with packets waiting is what breaks that condition: it makes the
      station active without moving its packets. */
  lemma AssociationSettles(s: Ap, f: AssocFrame)
    requires Buffered(s) && Lookup(s, f.addr2) < |s.entries| && f.sane && f.ssidOk
    requires AssocSucceeds(s, Lookup(s, f.addr2), f) && !AclRejectBranch(s, f)
    ensures var w := Lookup(s, f.addr2);
            Settled(AssocReq(s, f), w) <==> s.entries[w].psQueue == []
  {
  }

  lemma AssociationMovesNothing(s: Ap, f: AssocFrame, w: nat)
    requires Shape(s) && w < MAX_LEN_OF_MAC_TABLE
    ensures Pipe(AssocReq(s, f), w) == Pipe(s, w) && AssocReq(s, f).given == s.given
  {
  }

  /** Re-association loses the order: whenever a station re-associates while packets wait for it, the next packet
      accepted for it is sent before them. */
  lemma ReassociationOvertakes(s: Ap, f: AssocFrame, r: SendReq)
    requires Buffered(s) && Lookup(s, f.addr2) < |s.entries| && f.sane && f.ssidOk
    requires AssocSucceeds(s, Lookup(s, f.addr2), f) && !AclRejectBranch(s, f)
    requires Tracks(s, Lookup(s, f.addr2)) && Accepted(AssocReq(s, f), r, Lookup(s, f.addr2))
    ensures InSendOrder(Pipe(Send(AssocReq(s, f), r), Lookup(s, f.addr2))) <==> s.entries[Lookup(s, f.addr2)].psQueue == []
  {
    var w := Lookup(s, f.addr2);
    AssociationSettles(s, f);
    AssociationMovesNothing(s, f, w);
    NextPacketInOrder(AssocReq(s, f), r, w);
  }

  // BSS `b` goes through with the request: it authenticates the sender or challenges it.
  predicate Entertains(b: Bss, f: AuthFrame) {
    AclPasses(b, f.addr2) && ((f.alg == AUTH_MODE_OPEN && AcceptsOpen(b)) || (f.alg == AUTH_MODE_KEY && AcceptsKey(b)))
  }

  // The frame comes from the station in slot `w` and is addressed to its own BSS.
  predicate OwnBss(s: Ap, f: AuthFrame, v: nat, w: nat)
    requires Shape(s) && w < MAX_LEN_OF_MAC_TABLE
  {
    v == w && f.devUp && FindBss(s.bss, f.addr1) < |s.bss| && (IsClient(s.entries[w]) ==> s.bss[s.entries[w].apidx].bssid == f.addr1)
  }

  // The authentication frame keeps the station in slot `w` in the table but takes its association away.
  predicate Readmits(s: Ap, f: AuthFrame, w: nat)
    requires Shape(s) && w < MAX_LEN_OF_MAC_TABLE
  {
    || (f.seqNo == 1 && OwnBss(s, f, Lookup(s, f.addr2), w) && Entertains(s.bss[FindBss(s.bss, f.addr1)], f))
    || (f.seqNo == 3 && f.alg == AUTH_MODE_KEY && OwnBss(s, f, f.wcid, w)
        && f.addr2 == s.auxAddr && f.wep && f.text == s.auxChallenge)
  }

  // What becomes of slot `w`: its station is readmitted with its packets, or deleted, or left alone.
  predicate Touched(s: Ap, t: Ap, w: nat, readmitted: bool) {
    && Shape(s) && Shape(t) && w < MAX_LEN_OF_MAC_TABLE
    && t.txSwQueue == s.txSwQueue && t.hw == s.hw && t.given == s.given && s.released <= t.released
    && (var e, g := s.entries[w], t.entries[w];
        if readmitted then g.psQueue == e.psQueue && g.sst != Assoc else g.psQueue == [] || g == e)
  }

  lemma EnsureTouches(s: Ap, v: nat, addr: Mac, b: nat, sst: Sst, w: nat)
    requires Buffered(s) && v <= |s.entries| && b < |s.bss| && w < MAX_LEN_OF_MAC_TABLE && sst != Assoc
    ensures var (s1, u) := Ensure(s, v, addr, b);
            && Touched(s, s1, w, false) && (u < |s1.entries| ==> Touched(s, SetSst(s1, u, sst), w, v == w))
  {
    assert SlotOk(s, w);
  }

  lemma DeleteTouches(s: Ap, v: nat, w: nat)
    requires Shape(s) && w < MAX_LEN_OF_MAC_TABLE
    ensures Touched(s, DeleteSlot(s, v), w, false)
  {
  }

  lemma TouchedTrans(s: Ap, t: Ap, u: Ap, w: nat)
    requires Touched(s, t, w, false) && Touched(t, u, w, false)
    ensures Touched(s, u, w, false)
  {
  }

  lemma AuthReqAtTouches(s: Ap, v: nat, b: nat, f: AuthFrame, nonce: Challenge, w: nat)
    requires Buffered(s) && v <= |s.entries| && b < |s.bss| && w < MAX_LEN_OF_MAC_TABLE
    ensures Touched(s, AuthReqAt(s, v, b, f, nonce), w, v == w && Entertains(s.bss[b], f))
  {
    hide Ensure, DeleteSlot, AclPasses, SetSst, AcceptsOpen, AcceptsKey, SlotOk;
    DeleteTouches(s, v, w);
    EnsureTouches(s, v, f.addr2, b, Auth, w);
    EnsureTouches(s, v, f.addr2, b, NotAuth, w);
    EnsureFinds(s, v, f.addr2, b);
  }

  lemma EnsureFinds(s: Ap, v: nat, addr: Mac, b: nat)
    requires Shape(s) && v <= |s.entries| && b < |s.bss|
    ensures v < |s.entries| ==> Ensure(s, v, addr, b) == (s, v)
  {
  }

  lemma AuthReqTouches(s: Ap, f: AuthFrame, nonce: Challenge, w: nat)
    requires Buffered(s) && w < MAX_LEN_OF_MAC_TABLE && f.seqNo == 1
    ensures Touched(s, AuthReq(s, f, nonce), w, Readmits(s, f, w))
  {
    hide DeleteSlot, AuthReqAt, Entertains, FindBss, Lookup, Touched, SlotOk;
    SelfTouches(s, w);
    BssBound(s, f.addr1);
    var b, v0 := FindBss(s.bss, f.addr1), Lookup(s, f.addr2);
    LookupFinds(s, f.addr2);
    if b < |s.bss| && f.devUp {
      var (s1, v) := Rehome(s, v0, f.addr1);
      RehomeBuffered(s, v0, f.addr1);
      AuthReqAtTouches(s1, v, b, f, nonce, w);
      if v0 < |s.entries| && v == |s.entries| {
        DeleteTouches(s, v0, w);
        TouchedTrans(s, s1, AuthReqAt(s1, v, b, f, nonce), w);
      }
    }
  }

  lemma LookupFinds(s: Ap, addr: Mac)
    ensures Lookup(s, addr) <= |s.entries|
    ensures Lookup(s, addr) < |s.entries| ==> IsClient(s.entries[Lookup(s, addr)])
  {
  }

  lemma BssBound(s: Ap, addr: Mac)
    ensures FindBss(s.bss, addr) <= |s.bss|
  {
  }

  lemma SelfTouches(s: Ap, w: nat)
    requires Shape(s) && w < MAX_LEN_OF_MAC_TABLE
    ensures Touched(s, s, w, false)
  {
  }

  lemma SetSstTouches(s: Ap, v: nat, sst: Sst, w: nat)
    requires Shape(s) && v < MAX_LEN_OF_MAC_TABLE && w < MAX_LEN_OF_MAC_TABLE && sst != Assoc
    ensures Touched(s, SetSst(s, v, sst), w, v == w)
  {
  }

  lemma AuthConfirmTouches(s: Ap, f: AuthFrame, w: nat)
    requires Buffered(s) && w < MAX_LEN_OF_MAC_TABLE && f.seqNo == 3 && f.alg == AUTH_MODE_KEY
    ensures Touched(s, AuthConfirm(s, f), w, Readmits(s, f, w))
  {
    hide DeleteSlot, FindBss, Lookup, Touched, SetSst;
    SelfTouches(s, w);
    BssBound(s, f.addr1);
    if f.wcid < MAX_LEN_OF_MAC_TABLE {
      var (s1, v) := Rehome(s, f.wcid, f.addr1);
      DeleteTouches(s, f.wcid, w);
      DeleteTouches(s1, v, w);
      if v < |s1.entries| {
        SetSstTouches(s1, v, Auth, w);
      } else {
        TouchedTrans(s, s1, DeleteSlot(s1, v), w);
      }
    }
  }

  lemma AuthTouches(s: Ap, f: AuthFrame, nonce: Challenge, w: nat)
    requires Buffered(s) && w < MAX_LEN_OF_MAC_TABLE
    ensures Touched(s, RxAuth(s, f, nonce), w, Readmits(s, f, w))
  {
    hide AuthReq, AuthConfirm, Touched, OwnBss, SlotOk;
    SelfTouches(s, w);
    if f.seqNo == 1 {
      AuthReqTouches(s, f, nonce, w);
    } else if f.seqNo == 3 && f.alg == AUTH_MODE_KEY {
      AuthConfirmTouches(s, f, w);
    }
  }

  /** An authentication frame breaks the condition if and only if it readmits a station with packets waiting: it takes the
      association away without moving the packets. */
  lemma AuthenticationSettles(s: Ap, f: AuthFrame, nonce: Challenge, w: nat)
    requires Buffered(s) && w < MAX_LEN_OF_MAC_TABLE && Settled(s, w)
    ensures Settled(RxAuth(s, f, nonce), w) <==> s.entries[w].psQueue == [] || !Readmits(s, f, w)
  {
    hide RxAuth, Readmits;
    AuthTouches(s, f, nonce, w);
  }

  /** After any authentication frame, the next packet accepted for a station keeps the order if and only if the frame did not
      readmit the station with packets waiting. */
  lemma AuthenticationOvertakes(s: Ap, f: AuthFrame, nonce: Challenge, r: SendReq, w: nat)
    requires Buffered(s) && 1 <= w < MAX_LEN_OF_MAC_TABLE && Tracks(s, w) && Accepted(RxAuth(s, f, nonce), r, w)
    ensures InSendOrder(Pipe(Send(RxAuth(s, f, nonce), r), w)) <==> s.entries[w].psQueue == [] || !Readmits(s, f, w)
  {
    hide RxAuth, Readmits, Accepted, Send;
    AuthTouches(s, f, nonce, w);
    AuthenticationSettles(s, f, nonce, w);
    ShorterPipe(s, RxAuth(s, f, nonce), w);
    NextPacketInOrder(RxAuth(s, f, nonce), r, w);
  }

  lemma ShorterPipe(s: Ap, t: Ap, w: nat)
    requires Shape(s) && Shape(t) && w < MAX_LEN_OF_MAC_TABLE && Tracks(s, w)
    requires t.txSwQueue == s.txSwQueue && t.hw == s.hw && t.given == s.given
    requires t.entries[w].psQueue == s.entries[w].psQueue || t.entries[w].psQueue == []
    ensures InSendOrder(Pipe(t, w)) && AllBelow(Pipe(t, w), |t.given|)
  {
    hide From;
    assert Pipe(t, w) <= Pipe(s, w);
  }

  // ---------- a run that loses it ----------

  // The station with address 7 is in slot 1 of an open BSS, in the given state and with the given packets waiting.
  ghost predicate Scene(s: Ap, sst: Sst, psMode: PsMode, q: seq<Packet>, n: nat) {
    && Shape(s) && s.entries[0].kind == EntryNone
    && (var e := s.entries[1];
        e.kind == EntryClient && e.addr == 7 && e.apidx == 0 && e.sst == sst && e.psMode == psMode && e.psQueue == q)
    && s.bss[0].authMode == AuthOpen && !s.bss[0].ieee8021X && s.bss[0].policy == 0 && s.bss[0].bssid == 1
    && !s.fAnyStationInPsm && s.txSwQueue[QID_AC_BE] == [] && s.hw[QID_AC_BE] == [] && s.txSwQMaxLen == 32 && |s.given| == n
  }

  function Opening(): (s: Ap) {
    Ap(seq(MAX_LEN_OF_MAC_TABLE, _ => ZeroEntry),
       [Bss(1, AuthOpen, false, false, 0, 0, 0, seq(WLAN_MAX_NUM_OF_TIM, _ => 0), 0, [])],
       [[], [], [], []], [], 0, false, true, ZERO_MAC, 0, 0, 0, 300, 20, 32, {}, [], [], [[], [], [], []])
  }

  const Authenticate := EvAuth(AuthFrame(1, 7, 255, AUTH_MODE_OPEN, 1, false, 0, true), 0)
  const Associate := EvAssoc(AssocFrame(7, true, true, true, true, false, false))
  const Doze := EvRxData(1, 7, PwrSave)
  const SendOne := EvSend(SendReq(1, false, 0, QID_AC_BE, true, 100, true, false))

  lemma {:induction false} NotFound(entries: seq<Entry>, a: Mac, i: nat)
    requires i <= |entries| && forall j :: 0 <= j < |entries| ==> entries[j].kind == EntryNone
    ensures LookupFrom(entries, a, i) == |entries|
    decreases |entries| - i
  {
    if i < |entries| {
      NotFound(entries, a, i + 1);
    }
  }

  lemma OpeningIsInitial()
    ensures var s := Opening(); Init(s)
  {
    var s := Opening();
    assert forall i :: 0 <= i < |s.entries| ==> s.entries[i] == ZeroEntry;
    assert forall j: nat :: j / 8 < WLAN_MAX_NUM_OF_TIM ==> s.bss[0].timBitmaps[j / 8] == 0;
  }

  lemma NobodyYet()
    ensures var s := Opening(); Lookup(s, 7) == |s.entries| && VacancyFrom(s.entries, 1) == 1 && FindBss(s.bss, 1) == 0
  {
    var s := Opening();
    assert forall i :: 0 <= i < |s.entries| ==> s.entries[i] == ZeroEntry;
    NotFound(s.entries, 7, 0);
    assert s.entries[1] == ZeroEntry;
  }

  lemma FirstInsert()
    ensures var s1 := Insert(Opening(), 7, 0).0;
            Scene(s1, NotAuth, PwrActive, [], 0) && Insert(Opening(), 7, 0).1 == 1
  {
    hide Lookup, VacancyFrom, FindBss;
    NobodyYet();
  }

  lemma SceneAuthenticates(s: Ap)
    requires Scene(s, NotAuth, PwrActive, [], 0)
    ensures Scene(SetSst(s, 1, Auth), Auth, PwrActive, [], 0)
  {
  }

  lemma SceneOpens()
    ensures var s := Opening(); Enabled(s, Authenticate) && Scene(Step(s, Authenticate), Auth, PwrActive, [], 0)
  {
    hide Lookup, VacancyFrom, FindBss, SetSst, Insert, Scene;
    NobodyYet();
    FirstInsert();
    var s := Opening();
    assert Step(s, Authenticate) == AuthReqAt(s, |s.entries|, 0, Authenticate.frame, 0);
    SceneAuthenticates(Insert(s, 7, 0).0);
  }

  lemma SceneFound(s: Ap, sst: Sst, psMode: PsMode, q: seq<Packet>, n: nat)
    requires Scene(s, sst, psMode, q, n)
    ensures Lookup(s, 7) == 1
  {
  }

  lemma SceneAssociates(s: Ap, sst: Sst, psMode: PsMode, q: seq<Packet>, n: nat)
    requires Scene(s, sst, psMode, q, n) && (sst == Auth || sst == Assoc)
    ensures Enabled(s, Associate) && Scene(Step(s, Associate), Assoc, PwrActive, q, n)
  {
    SceneFound(s, sst, psMode, q, n);
  }

  lemma SceneDozes(s: Ap, n: nat)
    requires Scene(s, Assoc, PwrActive, [], n)
    ensures Enabled(s, Doze) && Scene(Step(s, Doze), Assoc, PwrSave, [], n)
  {
  }

  lemma SceneBuffers(s: Ap, n: nat)
    requires Scene(s, Assoc, PwrSave, [], n)
    ensures Enabled(s, SendOne) && Scene(Step(s, SendOne), Assoc, PwrSave, [Packet(n, 1)], n + 1)
  {
    hide TimBitSet, TimBit;
  }

  lemma SceneOvertakes(s: Ap, n: nat)
    requires Scene(s, Assoc, PwrActive, [Packet(0, 1)], 1)
    ensures Enabled(s, SendOne) && Pipe(Step(s, SendOne), 1) == [Packet(1, 1), Packet(0, 1)]
  {
    FromAll([Packet(1, 1)], 1, 1);
    assert Step(s, SendOne) == EnqueueTx(Given(s, Packet(1, 1)), QID_AC_BE, [Packet(1, 1)]);
    assert [] + [Packet(1, 1)] == [Packet(1, 1)];
  }

  lemma RunCons(s: Ap, e: Event, es: seq<Event>)
    requires Enabled(s, e) && Run(Step(s, e), es)
    ensures Run(s, [e] + es) && Exec(s, [e] + es) == Exec(Step(s, e), es)
  {
    hide Step;
    assert ([e] + es)[1..] == es;
  }

  /** Such a run exists: a station authenticates, associates, goes to sleep, has a packet buffered and associates again. */
  lemma OvertakingRun()
    ensures var s := Opening(); var es := [Authenticate, Associate, Doze, SendOne, Associate, SendOne];
            Init(s) && Run(s, es) && !InSendOrder(Pipe(Exec(s, es), 1))
  {
    hide Step, Enabled, Opening, Init, Scene, Pipe, Shape;
    var s := Opening();
    var a := [Authenticate, Associate, Doze, SendOne, Associate, SendOne];
    OpeningIsInitial();
    SceneOpens();
    var s1 := Step(s, Authenticate);
    SceneAssociates(s1, Auth, PwrActive, [], 0);
    var s2 := Step(s1, Associate);
    SceneDozes(s2, 0);
    var s3 := Step(s2, Doze);
    SceneBuffers(s3, 0);
    var s4 := Step(s3, SendOne);
    SceneAssociates(s4, Assoc, PwrSave, [Packet(0, 1)], 1);
    var s5 := Step(s4, Associate);
    SceneOvertakes(s5, 1);
    RunCons(s5, SendOne, []);
    assert [SendOne] + [] == [SendOne];
    RunCons(s4, Associate, [SendOne]);
    RunCons(s3, SendOne, [Associate, SendOne]);
    RunCons(s2, Doze, [SendOne, Associate, SendOne]);
    RunCons(s1, Associate, [Doze, SendOne, Associate, SendOne]);
    RunCons(s, Authenticate, [Associate, Doze, SendOne, Associate, SendOne]);
    assert [Associate] + [SendOne] == [Associate, SendOne];
    assert [SendOne] + [Associate, SendOne] == [SendOne, Associate, SendOne];
    assert [Doze] + [SendOne, Associate, SendOne] == [Doze, SendOne, Associate, SendOne];
    assert [Associate] + [Doze, SendOne, Associate, SendOne] == [Associate, Doze, SendOne, Associate, SendOne];
    assert a == [Authenticate] + [Associate, Doze, SendOne, Associate, SendOne];
    var q := Pipe(Exec(s, a), 1);
    assert q[1].no < q[0].no;
  }
}
