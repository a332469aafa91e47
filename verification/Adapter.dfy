/** The adapter object whose fields the handlers update in place.  Every method computes the step function of the same
    name in `Steps` or `MacTable`, so that everything proved about runs of steps holds of the object. */
module Adapter {
  import opened Types
  import opened MacTable
  import opened Steps
  import opened Ageing
  import AclConfig
  import AclList
  import AuthSafety
  import PowerSave

  class RtmpAdapter {
    const entries: array<Entry>
    const bss: array<Bss>
    const txSwQueue: array<seq<Packet>>
    var mcastPsQueue: seq<Packet>
    var mcastPsQIdleCount: nat
    var fAnyStationInPsm: bool
    var fAllStationAsRalink: bool
    var auxAddr: Mac
    var auxChallenge: Challenge
    var size: int
    var entryClientCount: int
    var staIdleTimeout: nat
    var entryLifeCheck: nat
    var txSwQMaxLen: nat
    ghost var more: set<Packet>
    ghost var given: seq<Packet>
    ghost var released: seq<Packet>
    ghost var hw: seq<seq<Packet>>

    // The state of the step functions that this object stands for.
    ghost function State(): Ap
      reads this, entries, bss, txSwQueue
    {
      Ap(entries[..], bss[..], txSwQueue[..], mcastPsQueue, mcastPsQIdleCount, fAnyStationInPsm, fAllStationAsRalink,
         auxAddr, auxChallenge, size, entryClientCount, staIdleTimeout, entryLifeCheck, txSwQMaxLen,
         more, given, released, hw)
    }

    ghost predicate Valid()
      reads this, entries, bss, txSwQueue
    {
      Shape(State())
    }

    /** The adapter after initialisation with the given BSSs, which have no stations and no TIM bit. */
    constructor (config: seq<Bss>, staIdleTimeout: nat, entryLifeCheck: nat, txSwQMaxLen: nat)
      requires 1 <= |config| <= HW_BEACON_MAX_NUM
      requires forall b :: 0 <= b < |config| ==>
                 |config[b].timBitmaps| == WLAN_MAX_NUM_OF_TIM && config[b].staCount == 0 && config[b].policy <= 2
      requires forall b, j: nat :: 0 <= b < |config| && j / 8 < WLAN_MAX_NUM_OF_TIM ==> !TimBit(config[b].timBitmaps, j)
      ensures Valid() && Init(State()) && bss[..] == config
      ensures fresh(entries) && fresh(bss) && fresh(txSwQueue)
    {
      entries := new Entry[MAX_LEN_OF_MAC_TABLE](_ => ZeroEntry);
      bss := new Bss[|config|](i requires 0 <= i < |config| => config[i]);
      txSwQueue := new seq<Packet>[NUM_OF_TX_RING](_ => []);
      mcastPsQueue, mcastPsQIdleCount, fAnyStationInPsm, fAllStationAsRalink := [], 0, false, true;
      auxAddr, auxChallenge, size, entryClientCount := ZERO_MAC, 0, 0, 0;
      this.staIdleTimeout, this.entryLifeCheck, this.txSwQMaxLen := staIdleTimeout, entryLifeCheck, txSwQMaxLen;
      more, given, released, hw := {}, [], [], seq(NUM_OF_TX_RING, _ => []);
      new;
      assert bss[..] == config;
    }

    // ---------- the MAC table ----------

    method PutEntry(w: nat, e: Entry)
      requires Valid() && w < entries.Length && e.apidx < bss.Length
      modifies entries
      ensures Valid() && State() == SetEntry(old(State()), w, e)
    {
      entries[w] := e;
    }

    method PutBss(b: nat, x: Bss)
      requires Valid() && b < bss.Length && |x.timBitmaps| == WLAN_MAX_NUM_OF_TIM
      modifies bss
      ensures Valid() && State() == SetBss(old(State()), b, x)
    {
      bss[b] := x;
    }

    method TimBitOn(b: nat, aid: nat)
      requires Valid() && b < bss.Length && aid < MAX_LEN_OF_MAC_TABLE
      modifies bss
      ensures Valid() && State() == TimSet(old(State()), b, aid)
    {
      PutBss(b, bss[b].(timBitmaps := TimBitSet(bss[b].timBitmaps, aid)));
    }

    method TimBitOff(b: nat, aid: nat)
      requires Valid() && b < bss.Length && aid < MAX_LEN_OF_MAC_TABLE
      modifies bss
      ensures Valid() && State() == TimClear(old(State()), b, aid)
    {
      PutBss(b, bss[b].(timBitmaps := TimBitClear(bss[b].timBitmaps, aid)));
    }

    // MacTableLookup.
    method LookupEntry(addr: Mac) returns (w: nat)
      requires Valid()
      ensures w == Lookup(State(), addr)
    {
      w := 0;
      while w < entries.Length && !(entries[w].kind != EntryNone && entries[w].addr == addr)
        invariant w <= entries.Length && Lookup(State(), addr) == LookupFrom(entries[..], addr, w)
      {
        w := w + 1;
      }
    }

    method FindBssIndex(bssid: Mac) returns (b: nat)
      requires Valid()
      ensures b == FindBss(State().bss, bssid)
    {
      b := 0;
      while b < bss.Length && bss[b].bssid != bssid
        invariant b <= bss.Length && FindBss(bss[..], bssid) == FindBssFrom(bss[..], bssid, b)
      {
        b := b + 1;
      }
    }

    /** APCleanupPsQueue on the queue of a station. */
    method CleanupQueue(w: nat)
      requires Valid() && w < entries.Length
      modifies this`released, entries
      ensures Valid() && State() == CleanupPsQueue(old(State()), w)
    {
      ghost var q := entries[w].psQueue;
      ghost var n := 0;
      while entries[w].psQueue != []
        invariant n <= |q| && entries[w] == old(entries[w]).(psQueue := q[n..])
        invariant entries[..] == old(entries[..])[w := entries[w]]
        invariant released == old(released) + q[..n]
        decreases |entries[w].psQueue|
      {
        ghost var p := entries[w].psQueue[0];
        entries[w] := entries[w].(psQueue := entries[w].psQueue[1..]);
        released := released + [p];
        assert q[..n + 1] == q[..n] + [p];
        n := n + 1;
      }
      assert q[..n] == q;
    }

    /** MacTableInsertEntry. */
    method InsertEntry(addr: Mac, apidx: nat) returns (w: nat)
      requires Valid() && apidx < bss.Length
      modifies this, entries, bss
      ensures Valid() && (State(), w) == Insert(old(State()), addr, apidx)
    {
      w := entries.Length;
      if size >= MAX_LEN_OF_MAC_TABLE {
        return;
      }
      var i := 1;
      while i < entries.Length && entries[i].kind != EntryNone
        invariant 1 <= i <= entries.Length && VacancyFrom(entries[..], 1) == VacancyFrom(entries[..], i)
      {
        i := i + 1;
      }
      if i == entries.Length {
        return;
      }
      entries[i] := ZeroEntry;
      if BssFull(bss[apidx]) {
        return;
      }
      entries[i] := entries[i].(kind := EntryClient, addr := addr, apidx := apidx, staIdleTimeout := staIdleTimeout,
                                assocDeadLine := MAC_TABLE_ASSOC_TIMEOUT);
      bss[apidx] := bss[apidx].(staCount := bss[apidx].staCount + 1);
      entryClientCount, size := entryClientCount + 1, size + 1;
      w := i;
      assert entries[..] == old(entries[..])[i := NewEntry(old(State()), addr, apidx)];
    }

    /** MacTableDeleteEntry. */
    method DeleteEntry(w: nat, addr: Mac)
      requires Valid()
      modifies this, entries, bss
      ensures Valid() && State() == Delete(old(State()), w, addr)
    {
      if w >= MAX_LEN_OF_MAC_TABLE || entries[w].kind == EntryNone || entries[w].addr != addr {
        return;
      }
      var b := entries[w].apidx;
      bss[b] := bss[b].(staCount := bss[b].staCount - 1);
      entryClientCount, size := entryClientCount - 1, size - 1;
      CleanupQueue(w);
      entries[w] := entries[w].(addr := ZERO_MAC, kind := EntryNone);
    }

    // Deletes the station in slot `w`, if `w` is a slot.
    method DropSlot(w: nat)
      requires Valid()
      modifies this, entries, bss
      ensures Valid() && State() == DeleteSlot(old(State()), w)
    {
      hide Delete;
      if w < entries.Length {
        DeleteEntry(w, entries[w].addr);
      }
    }

    // ---------- sending and power save ----------

    /** APInsertPsQueue. */
    method InsertPs(p: Packet, w: nat)
      requires Valid() && w < MAX_LEN_OF_MAC_TABLE
      modifies this, entries, bss
      ensures Valid() && State() == InsertPsQueue(old(State()), p, w)
    {
      hide TimSet;
      if |entries[w].psQueue| >= MAX_PACKETS_IN_PS_QUEUE {
        released := released + [p];
      } else {
        PutEntry(w, entries[w].(psQueue := entries[w].psQueue + [p]));
        TimBitOn(entries[w].apidx, w);
      }
    }

    method Enqueue(qid: nat, p: Packet)
      requires Valid() && qid < NUM_OF_TX_RING
      modifies txSwQueue
      ensures Valid() && State() == EnqueueTx(old(State()), qid, [p])
    {
      txSwQueue[qid] := txSwQueue[qid] + [p];
    }

    /** APSendPacket from the choice of the queue on. */
    method DeliverPacket(r: SendReq, p: Packet)
      requires Valid() && ReqOk(r)
      modifies this, entries, bss, txSwQueue
      ensures Valid() && State() == Deliver(old(State()), r, p)
    {
      hide InsertPsQueue, TimSet, EnqueueTx;
      if r.group && fAnyStationInPsm {
        if |mcastPsQueue| >= MAX_PACKETS_IN_MCAST_PS_QUEUE {
          released := released + [p];
        } else {
          mcastPsQueue := [p] + mcastPsQueue;
          var b := if r.wcid == MCAST_WCID then (if r.apidx < bss.Length then r.apidx else 0) else entries[r.wcid].apidx;
          TimBitOn(b, 0);
        }
      } else if Sleeping(entries[r.wcid]) {
        InsertPs(p, r.wcid);
      } else if |txSwQueue[r.qid]| >= txSwQMaxLen {
        released := released + [p];
      } else {
        Enqueue(r.qid, p);
      }
    }

    /** APSendPacket; `p` is the packet with its place in the order of calls. */
    method SendPacket(r: SendReq, p: Packet)
      requires Valid() && ReqOk(r) && p == PacketOf(State(), r)
      modifies this, entries, bss, txSwQueue
      ensures Valid() && State() == Send(old(State()), r)
    {
      hide Deliver;
      given := given + [p];
      var b := if r.wcid == MCAST_WCID then (if r.apidx < bss.Length then r.apidx else 0) else entries[r.wcid].apidx;
      var secured := if r.wcid == MCAST_WCID then bss[b].portSecured else entries[r.wcid].portSecured;
      if || !r.bufOk || r.len <= 14 || !r.etherOk
         || (!IsClient(entries[r.wcid]) && r.wcid != MCAST_WCID)
         || (r.wcid == MCAST_WCID && entryClientCount == 0)
         || (NeedsPort(bss[b]) && !r.eapol && !secured) {
        released := released + [p];
      } else {
        DeliverPacket(r, p);
      }
    }

    // Moves the oldest packet of the station to the best-effort queue.
    method MoveHead(w: nat) returns (ghost p: Packet)
      requires Valid() && w < MAX_LEN_OF_MAC_TABLE && entries[w].psQueue != []
      modifies entries, txSwQueue
      ensures Valid() && p == old(entries[w].psQueue[0])
      ensures var s := old(State());
              State() == EnqueueTx(SetEntry(s, w, s.entries[w].(psQueue := s.entries[w].psQueue[1..])), QID_AC_BE, [p])
    {
      p := entries[w].psQueue[0];
      var head := entries[w].psQueue[0];
      entries[w] := entries[w].(psQueue := entries[w].psQueue[1..]);
      txSwQueue[QID_AC_BE] := txSwQueue[QID_AC_BE] + [head];
    }

    // A PS-Poll: one packet, marked if others remain.
    method ReleaseOldest(w: nat)
      requires Valid() && w < MAX_LEN_OF_MAC_TABLE
      modifies this`more, entries, txSwQueue
      ensures Valid() && State() == ReleaseOne(old(State()), w)
    {
      if entries[w].psQueue != [] {
        ghost var q := entries[w].psQueue;
        ghost var p := MoveHead(w);
        if |q| > 1 {
          more := more + {p};
        }
      }
    }

    // A wake-up: all packets, one after the other.
    method DrainQueue(w: nat)
      requires Valid() && w < MAX_LEN_OF_MAC_TABLE
      modifies entries, txSwQueue
      ensures Valid() && State() == ReleaseAll(old(State()), w)
    {
      ghost var s, q, n := State(), entries[w].psQueue, 0;
      NothingMoved(s, w);
      while entries[w].psQueue != []
        invariant Valid() && n <= |q| && State() == Moved(s, w, n)
        decreases |entries[w].psQueue|
      {
        MovedNext(s, w, n);
        hide Moved, EnqueueTx, SetEntry;
        assert State().entries[w] == entries[w];
        MovedQueue(s, w, n);
        ghost var p := MoveHead(w);
        n := n + 1;
        MovedQueue(s, w, n);
        assert State().entries[w] == entries[w];
      }
      AllMoved(s, w, n);
    }

    /** APHandleRxPsPoll. */
    method PsPoll(addr: Mac, aid: nat, isActive: bool)
      requires Valid() && aid < MAX_LEN_OF_MAC_TABLE
      modifies this`more, entries, bss, txSwQueue
      ensures Valid() && State() == HandlePsPoll(old(State()), addr, aid, isActive)
    {
      hide ReleaseAll, ReleaseOne, TimClear, SetEntry;
      if entries[aid].addr != addr {
        return;
      }
      PutEntry(aid, entries[aid].(continueTxFailCnt := 0));
      if isActive {
        DrainQueue(aid);
      } else {
        ReleaseOldest(aid);
      }
      ghost var s := State();
      if aid > 0 && entries[aid].psQueue == [] {
        TimBitOff(entries[aid].apidx, aid);
        PutEntry(aid, entries[aid].(psQIdleCount := 0));
      }
      assert State() == ClearIfEmpty(s, aid);
    }

    /** APPsIndicate. */
    method IndicatePs(addr: Mac, wcid: nat, psm: PsMode)
      requires Valid()
      modifies this`more, entries, bss, txSwQueue
      ensures Valid() && State() == PsIndicate(old(State()), addr, wcid, psm)
    {
      hide HandlePsPoll;
      if wcid >= MAX_LEN_OF_MAC_TABLE {
        return;
      }
      var oldMode := entries[wcid].psMode;
      PutEntry(wcid, entries[wcid].(noDataIdleCount := 0, psMode := psm));
      if oldMode == PwrSave && psm == PwrActive {
        PsPoll(addr, wcid, true);
      }
    }

    /** A ToDS data frame: APCheckClass2Class3Error, then the power-management bit. */
    method ReceiveData(wcid: nat, addr2: Mac, psm: PsMode)
      requires Valid()
      modifies this, entries, bss, txSwQueue
      ensures Valid() && State() == RxData(old(State()), wcid, addr2, psm)
    {
      hide PsIndicate, Delete;
      if wcid < MAX_LEN_OF_MAC_TABLE && entries[wcid].sst == Assoc {
        IndicatePs(addr2, wcid, psm);
      } else if wcid < MAX_LEN_OF_MAC_TABLE {
        if entries[wcid].sst == Auth || IsClient(entries[wcid]) {
          DeleteEntry(wcid, addr2);
        }
      }
    }

    // ---------- authentication and association ----------

    // A station found for a frame to another BSS than its own is deleted.
    method RehomeStation(w: nat, addr1: Mac) returns (v: nat)
      requires Valid() && w <= entries.Length
      modifies this, entries, bss
      ensures Valid() && (State(), v) == Rehome(old(State()), w, addr1)
    {
      hide DeleteSlot;
      v := w;
      if w < entries.Length && IsClient(entries[w]) && bss[entries[w].apidx].bssid != addr1 {
        DropSlot(w);
        v := entries.Length;
      }
    }

    method PutSst(w: nat, sst: Sst)
      requires Valid() && w < entries.Length
      modifies entries
      ensures Valid() && State() == SetSst(old(State()), w, sst)
    {
      PutEntry(w, entries[w].(sst := sst));
    }

    // The station's slot, with the station inserted if it is new.
    method EnsureStation(w: nat, addr: Mac, b: nat) returns (v: nat)
      requires Valid() && w <= entries.Length && b < bss.Length
      modifies this, entries, bss
      ensures Valid() && (State(), v) == Ensure(old(State()), w, addr, b)
    {
      hide Insert;
      v := w;
      if w == entries.Length {
        v := InsertEntry(addr, b);
      }
    }

    // ApCheckAccessControlList for a station of BSS `b`.
    method CheckAccess(b: nat, addr: Mac) returns (passes: bool)
      requires Valid() && b < bss.Length
      ensures passes == AclPasses(bss[b], addr)
    {
      passes := true;
      if bss[b].policy != 0 {
        passes := bss[b].policy != 1;
        var acl := bss[b].acl;
        var i := 0;
        while i < |acl|
          invariant i <= |acl| && addr !in acl[..i] && passes == (bss[b].policy != 1)
        {
          if acl[i] == addr {
            assert addr in acl;
            passes := !passes;
            return;
          }
          i := i + 1;
        }
      }
    }

    // The answer to an authentication request once the slot of the sender is known.
    method AnswerAuth(w: nat, b: nat, f: AuthFrame, nonce: Challenge)
      requires Valid() && w <= entries.Length && b < bss.Length
      modifies this, entries, bss
      ensures Valid() && State() == AuthReqAt(old(State()), w, b, f, nonce)
    {
      hide AclPasses, DeleteSlot, Ensure, SetSst;
      var passes := CheckAccess(b, f.addr2);
      if !passes {
        DropSlot(w);
      } else if f.alg == AUTH_MODE_OPEN && AcceptsOpen(bss[b]) {
        var v := EnsureStation(w, f.addr2, b);
        if v < entries.Length {
          PutSst(v, Auth);
        }
      } else if f.alg == AUTH_MODE_KEY && AcceptsKey(bss[b]) {
        var v := EnsureStation(w, f.addr2, b);
        if v < entries.Length {
          PutSst(v, NotAuth);
          auxAddr, auxChallenge := f.addr2, nonce;
        }
      } else {
        DropSlot(w);
      }
    }

    /** APPeerAuthReqAtIdleAction. */
    method AuthReqAtIdle(f: AuthFrame, nonce: Challenge)
      requires Valid()
      modifies this, entries, bss
      ensures Valid() && State() == AuthReq(old(State()), f, nonce)
    {
      hide AuthReqAt, Rehome, Lookup, FindBss;
      var b := FindBssIndex(f.addr1);
      ReachedBss(State(), f.addr1);
      if b == bss.Length || !f.devUp {
        return;
      }
      var found := LookupEntry(f.addr2);
      LookedUp(State(), f.addr2);
      var w := RehomeStation(found, f.addr1);
      AnswerAuth(w, b, f, nonce);
    }

    /** APPeerAuthConfirmAction. */
    method AuthConfirmAction(f: AuthFrame)
      requires Valid()
      modifies this, entries, bss
      ensures Valid() && State() == AuthConfirm(old(State()), f)
    {
      hide Rehome, DeleteSlot, SetSst, FindBss;
      var b := FindBssIndex(f.addr1);
      ReachedBss(State(), f.addr1);
      if b == bss.Length || !f.devUp || f.wcid >= MAX_LEN_OF_MAC_TABLE {
        return;
      }
      var w := RehomeStation(f.wcid, f.addr1);
      if w < entries.Length && f.addr2 == auxAddr && f.wep && f.text == auxChallenge {
        PutSst(w, Auth);
      } else {
        DropSlot(w);
      }
    }

    /** Dispatch of an authentication frame by its algorithm and sequence number. */
    method ReceiveAuth(f: AuthFrame, nonce: Challenge)
      requires Valid()
      modifies this, entries, bss
      ensures Valid() && State() == RxAuth(old(State()), f, nonce)
    {
      hide AuthReq, AuthConfirm;
      if f.seqNo == 1 && (f.alg == AUTH_MODE_OPEN || f.alg == AUTH_MODE_KEY) {
        AuthReqAtIdle(f, nonce);
      } else if f.seqNo == 3 && f.alg == AUTH_MODE_KEY {
        AuthConfirmAction(f);
      }
    }

    /** APBuildAssociation. */
    method Associate(w: nat, f: AssocFrame) returns (ok: bool)
      requires Valid() && w < entries.Length
      modifies entries
      ensures Valid() && ok == AssocSucceeds(old(State()), w, f) && State() == BuildAssociation(old(State()), w, f)
    {
      ok := false;
      ghost var was := State();
      if f.rateOk && (entries[w].sst == Auth || entries[w].sst == Assoc) {
        entries[w] := entries[w].(noDataIdleCount := 0);
        if f.rsnOk && w != 0 && (f.hasRsn || bss[entries[w].apidx].authMode != AuthWpa) {
          entries[w] := entries[w].(sst := Assoc, ralinkChipset := f.ralink,
                                    portSecured := !NeedsPort(bss[entries[w].apidx]));
          ok := true;
        }
        assert entries[..] == was.entries[w := entries[w]];
      }
    }

    /** ap_cmm_peer_assoc_req_action. */
    method ReceiveAssoc(f: AssocFrame)
      requires Valid()
      modifies entries
      ensures Valid() && State() == AssocReq(old(State()), f)
    {
      hide Lookup, BuildAssociation, AssocSucceeds, AclPasses;
      var w := LookupEntry(f.addr2);
      LookedUp(State(), f.addr2);
      if w == entries.Length || !f.sane || !f.ssidOk {
        return;
      }
      var passes := CheckAccess(entries[w].apidx, f.addr2);
      var ok := Associate(w, f);
      if passes && ok {
        PutEntry(w, entries[w].(psMode := PwrActive));
      }
    }

    /** The disassociation and kick-out handlers. */
    method ReceiveDisassoc(wcid: nat, addr2: Mac)
      requires Valid()
      modifies this, entries, bss
      ensures Valid() && State() == PeerDisassoc(old(State()), wcid, addr2)
    {
      hide Lookup, Delete;
      var w := LookupEntry(addr2);
      LookedUp(State(), addr2);
      if w < entries.Length {
        DeleteEntry(wcid, addr2);
      }
    }

    method KickOutStation(addr: Mac)
      requires Valid()
      modifies this, entries, bss
      ensures Valid() && State() == KickOut(old(State()), addr)
    {
      hide Lookup, Delete;
      var w := LookupEntry(addr);
      DeleteEntry(w, addr);
    }

    // ---------- access control ----------

    /** ApUpdateAccessControlList. */
    method UpdateAccessControlList(b: nat)
      requires Valid() && b < bss.Length
      modifies this, entries, bss
      ensures Valid() && State() == UpdateAcl(old(State()), b)
    {
      if bss[b].policy == 0 {
        return;
      }
      hide Delete, UpdateAclFrom;
      ghost var s := State();
      for i := 0 to MAX_LEN_OF_MAC_TABLE
        invariant Valid() && UpdateAclFrom(s, b, 0) == UpdateAclFrom(State(), b, i)
      {
        UpdateAclUnfold(State(), b, i);
        if IsClient(entries[i]) && entries[i].apidx == b {
          var matched := InList(bss[b].acl, entries[i].addr);
          if (bss[b].policy == 1 && !matched) || (bss[b].policy == 2 && matched) {
            DeleteEntry(i, entries[i].addr);
          }
        }
      }
      UpdateAclEnds(State(), b);
    }

    // The inner loop over the access control list.
    static method InList(acl: seq<Mac>, addr: Mac) returns (matched: bool)
      ensures matched <==> addr in acl
    {
      var k := 0;
      while k < |acl| && acl[k] != addr
        invariant k <= |acl| && addr !in acl[..k]
      {
        k := k + 1;
      }
      matched := k < |acl|;
    }

    // ---------- the one-second sweep ----------

    // Keep-alive of one station.
    method ProbeStation(i: nat)
      requires Valid() && i < MAX_LEN_OF_MAC_TABLE
      modifies entries, bss
      ensures Valid() && State() == KeepAlive(old(State()), i)
    {
      hide TimSet, SetEntry;
      var e := entries[i];
      var limit := bss[e.apidx].stationKeepAliveTime;
      if limit != 0 && e.noDataIdleCount >= limit {
        var n := e.stationKeepAliveCount;
        PutEntry(i, e.(stationKeepAliveCount := if n > 0 && n + 1 >= limit then 0 else n + 1));
        if n == 0 && e.psMode == PwrSave {
          TimBitOn(e.apidx, i);
        }
      }
    }

    // Garbage collection of the queue of one station.
    method CollectQueue(i: nat)
      requires Valid() && i < MAX_LEN_OF_MAC_TABLE
      modifies this, entries, bss
      ensures Valid() && State() == CollectPsQueue(old(State()), i)
    {
      hide TimClear, CleanupPsQueue;
      var e := entries[i];
      if e.psQueue == [] {
        PutEntry(i, e.(psQIdleCount := 0));
      } else if e.psQIdleCount + 1 > 2 {
        CleanupQueue(i);
        CleanedApidx(old(State()), i);
        PutEntry(i, entries[i].(psQIdleCount := 0));
        TimBitOff(e.apidx, i);
      } else {
        PutEntry(i, e.(psQIdleCount := e.psQIdleCount + 1));
      }
    }

    // The turn of one slot in the sweep.
    method SweepSlot(i: nat)
      requires Valid() && i < MAX_LEN_OF_MAC_TABLE
      modifies this, entries, bss
      ensures Valid() && State() == SweepEntry(old(State()), i)
    {
      hide KeepAlive, DeleteSlot, CollectPsQueue;
      if !IsClient(entries[i]) {
        return;
      }
      var e := Tick(entries[i]);
      PutEntry(i, e);
      if e.sst != Assoc && e.noDataIdleCount >= e.assocDeadLine {
        DropSlot(i);
        return;
      }
      if e.psMode == PwrSave {
        fAnyStationInPsm := true;
      }
      ProbeStation(i);
      if e.noDataIdleCount >= e.staIdleTimeout || (e.continueTxFailCnt >= entryLifeCheck && e.psMode != PwrSave) {
        DropSlot(i);
        return;
      }
      CollectQueue(i);
      if !e.ralinkChipset {
        fAllStationAsRalink := false;
      }
    }

    // The first loop of MacTableMaintenance: every station has its turn, and the secured ports are counted.
    method SweepStations(counters: array<nat>)
      requires Valid() && !IsClient(entries[0])
      requires counters.Length == bss.Length && forall b :: 0 <= b < bss.Length ==> counters[b] == 0
      modifies this, entries, bss, counters
      ensures Valid() && State() == SweepFrom(old(State()), 1) && Counted(counters[..], entries[..], entries.Length)
    {
      hide SweepEntry, Counted;
      ghost var s := State();
      NothingCounted(counters[..], entries[..]);
      for i := 1 to MAX_LEN_OF_MAC_TABLE
        invariant Valid() && SweepFrom(s, 1) == SweepFrom(State(), i) && Counted(counters[..], entries[..], i)
      {
        ghost var t, c := State(), counters[..];
        SweepLocal(t, i);
        SweepSlot(i);
        if IsClient(entries[i]) && entries[i].portSecured {
          counters[entries[i].apidx] := counters[entries[i].apidx] + 1;
        }
        OneCounted(c, counters[..], t.entries, entries[..], i);
      }
    }

    // The port of every BSS is secured when some counter says so.
    method UpdatePorts(counters: array<nat>)
      requires Valid() && counters.Length == bss.Length && Counted(counters[..], entries[..], entries.Length)
      modifies bss
      ensures Valid() && State() == PortsFrom(old(State()), 0)
    {
      hide Counted, AnyPortSecured, SetBss;
      ghost var s := State();
      for b := 0 to bss.Length
        invariant Valid() && entries[..] == s.entries && PortsFrom(s, 0) == PortsFrom(State(), b)
      {
        CountedPort(State(), counters[..], b);
        PutBss(b, bss[b].(portSecured := counters[b] > 0));
      }
    }

    method ClearMcastBits()
      requires Valid()
      modifies bss
      ensures Valid() && State() == BcmcClearFrom(old(State()), 0)
    {
      hide TimClear;
      ghost var s := State();
      for b := 0 to bss.Length
        invariant Valid() && BcmcClearFrom(s, 0) == BcmcClearFrom(State(), b)
      {
        TimBitOff(b, 0);
      }
    }

    // Garbage collection of the multicast queue.
    method CollectMcastQueue()
      requires Valid()
      modifies this, bss
      ensures Valid() && State() == CollectMcast(old(State()))
    {
      hide BcmcClearFrom;
      if mcastPsQueue == [] {
        mcastPsQIdleCount := 0;
        return;
      }
      mcastPsQIdleCount := mcastPsQIdleCount + 1;
      if mcastPsQIdleCount > 1 {
        ReleaseMcast();
        mcastPsQIdleCount := 0;
        ClearMcastBits();
      }
    }

    /** APCleanupPsQueue on the multicast queue. */
    method ReleaseMcast()
      requires Valid()
      modifies this`mcastPsQueue, this`released
      ensures Valid() && mcastPsQueue == [] && released == old(released + mcastPsQueue)
    {
      ghost var q, n := mcastPsQueue, 0;
      while mcastPsQueue != []
        invariant n <= |q| && mcastPsQueue == q[n..] && released == old(released) + q[..n]
        decreases |mcastPsQueue|
      {
        released := released + [mcastPsQueue[0]];
        mcastPsQueue := mcastPsQueue[1..];
        assert q[..n + 1] == q[..n] + [q[n]];
        n := n + 1;
      }
      assert q[..n] == q;
    }

    /** MacTableMaintenance. */
    method Maintenance()
      requires Valid() && !IsClient(entries[0])
      modifies this, entries, bss
      ensures Valid() && State() == Sweep(old(State()))
    {
      hide SweepFrom, PortsFrom, CollectMcast, Counted;
      var counters := new nat[bss.Length](_ => 0);
      fAnyStationInPsm, fAllStationAsRalink := false, true;
      SweepStations(counters);
      UpdatePorts(counters);
      CollectMcastQueue();
    }

    // ---------- the DTIM and the hardware ----------

    /** The loop that moves the multicast queue to the head of the best-effort queue. */
    method MoveMcast()
      requires Valid()
      modifies this`mcastPsQueue, this`more, txSwQueue
      ensures Valid() && State() == DtimLoop(old(State()), 0)
    {
      ghost var s := State();
      var count := 0;
      while mcastPsQueue != [] && |txSwQueue[QID_AC_BE]| <= txSwQMaxLen + MAX_PACKETS_IN_MCAST_PS_QUEUE
        invariant Valid() && DtimLoop(s, 0) == DtimLoop(State(), count)
        decreases |mcastPsQueue|
      {
        var p := mcastPsQueue[0];
        mcastPsQueue := mcastPsQueue[1..];
        if count > 0 {
          more := more + {p};
        }
        txSwQueue[QID_AC_BE] := [p] + txSwQueue[QID_AC_BE];
        count := count + 1;
      }
    }

    /** The DTIM part of tbtt_tasklet. */
    method DeliverMcast()
      requires Valid()
      modifies this, bss, txSwQueue
      ensures Valid() && State() == Dtim(old(State()))
    {
      hide DtimLoop, BcmcClearFrom;
      MoveMcast();
      if mcastPsQueue == [] {
        ClearMcastBits();
      }
      mcastPsQIdleCount := 0;
    }

    /** RTMPDeQueuePacket for one packet; `ok` tells whether the hardware takes it. */
    method DequeuePacket(qid: nat, ok: bool)
      requires Valid() && qid < NUM_OF_TX_RING
      modifies this`hw, this`released, txSwQueue
      ensures Valid() && State() == Dequeue(old(State()), qid, ok)
    {
      if txSwQueue[qid] != [] {
        ghost var p := txSwQueue[qid][0];
        txSwQueue[qid] := txSwQueue[qid][1..];
        if ok {
          hw := hw[qid := hw[qid] + [p]];
        } else {
          released := released + [p];
        }
      }
    }

    /** The transmit status of a frame. */
    method ReportTx(wcid: nat, ok: bool)
      requires Valid()
      modifies entries
      ensures Valid() && State() == TxStatus(old(State()), wcid, ok)
    {
      if wcid < MAX_LEN_OF_MAC_TABLE {
        var e := entries[wcid];
        PutEntry(wcid, if ok then e.(noDataIdleCount := 0, continueTxFailCnt := 0)
                       else e.(continueTxFailCnt := e.continueTxFailCnt + 1));
      }
    }

    // ---------- the access control commands ----------

    // The list of BSS `b` fits in its array.
    ghost predicate ListFits(b: nat)
      requires b < bss.Length
      reads this, bss
    {
      AclList.Fits(bss[b].acl)
    }

    method StoreAcl(b: nat, acl: seq<Mac>)
      requires Valid() && b < bss.Length
      modifies this, entries, bss
      ensures Valid() && State() == SetAcl(old(State()), b, acl)
    {
      hide UpdateAcl;
      PutBss(b, bss[b].(acl := acl));
      UpdateAccessControlList(b);
    }

    /** Set_AccessPolicy_Proc. */
    method SetAccessPolicy(b: nat, policy: nat)
      requires Valid() && b < bss.Length
      modifies this, entries, bss
      ensures Valid() && State() == SetPolicy(old(State()), b, policy)
    {
      hide UpdateAcl;
      if policy <= 2 {
        PutBss(b, bss[b].(policy := policy));
        UpdateAccessControlList(b);
      }
    }

    /** Set_ACLAddEntry_Proc. */
    method AddToList(b: nat, addrs: seq<Mac>)
      requires Valid() && b < bss.Length && ListFits(b)
      modifies this, entries, bss
      ensures Valid() && State() == AclAdd(old(State()), b, addrs)
    {
      hide SetAcl, AclList.Add;
      var list := new AclConfig.AccessList.Load(bss[b].policy, bss[b].acl);
      var ok := list.AddEntries(addrs);
      if ok {
        var acl := list.Contents();
        StoreAcl(b, acl);
      }
    }

    /** Set_ACLDelEntry_Proc. */
    method DeleteFromList(b: nat, addrs: seq<Mac>)
      requires Valid() && b < bss.Length && ListFits(b)
      modifies this, entries, bss
      ensures Valid() && State() == AclDel(old(State()), b, addrs)
    {
      hide SetAcl, AclList.Del;
      var list := new AclConfig.AccessList.Load(bss[b].policy, bss[b].acl);
      list.DelEntries(addrs);
      var acl := list.Contents();
      StoreAcl(b, acl);
    }

    /** Set_ACLClearAll_Proc with the argument 1. */
    method ClearList(b: nat)
      requires Valid() && b < bss.Length
      modifies this, entries, bss
      ensures Valid() && State() == AclClear(old(State()), b)
    {
      hide SetAcl;
      if bss[b].acl != [] {
        StoreAcl(b, []);
      }
    }

    // ---------- all events ----------

    // What the handler of an event relies on besides `Enabled`: slot 0 is never a station, and lists fit their arrays.
    ghost predicate Ready(e: Event)
      reads this, entries, bss, txSwQueue
    {
      && Valid() && Enabled(State(), e) && !IsClient(entries[0])
      && (e.EvAclAdd? ==> ListFits(e.b)) && (e.EvAclDel? ==> ListFits(e.b))
    }

    /** The object makes the steps of the state machine, for every event; `p` is the packet of a send request. */
    method Handle(e: Event, p: Packet)
      requires Ready(e) && (e.EvSend? ==> p == PacketOf(State(), e.req))
      modifies this, entries, bss, txSwQueue
      ensures Valid() && State() == Step(old(State()), e)
    {
      hide Send, HandlePsPoll, RxData, PsIndicate, RxAuth, AssocReq, Delete, PeerDisassoc, KickOut, SetPolicy, AclAdd, AclDel,
           AclClear, Sweep, Dtim, Dequeue, TxStatus;
      match e
      case EvSend(r) => SendPacket(r, p);
      case EvPsPoll(aid, a) =>
        if aid < MAX_LEN_OF_MAC_TABLE {
          PsPoll(a, aid, false);
        }
      case EvRxData(w, a, psm) => ReceiveData(w, a, psm);
      case EvRxAction(w, a, psm) => IndicatePs(a, w, psm);
      case EvAuth(f, nonce) => ReceiveAuth(f, nonce);
      case EvAssoc(f) => ReceiveAssoc(f);
      case EvDeauth(w, a) => DeleteEntry(w, a);
      case EvDisassoc(w, a) => ReceiveDisassoc(w, a);
      case EvKickOut(a) => KickOutStation(a);
      case EvPolicy(b, policy) => SetAccessPolicy(b, policy);
      case EvAclAdd(b, addrs) => AddToList(b, addrs);
      case EvAclDel(b, addrs) => DeleteFromList(b, addrs);
      case EvAclClear(b) => ClearList(b);
      case EvSweep => Maintenance();
      case EvDtim => DeliverMcast();
      case EvDequeue(q, ok) => DequeuePacket(q, ok);
      case EvTxStatus(w, ok) => ReportTx(w, ok);
    }
  }

  /** What `Ready` adds to `Enabled` holds after every run from an initial state whose lists fit their arrays. */
  lemma AlwaysReady(s: Ap, es: seq<Event>)
    requires Init(s) && Run(s, es) && forall b :: 0 <= b < |s.bss| ==> AclList.Fits(s.bss[b].acl)
    ensures !IsClient(Exec(s, es).entries[0])
    ensures forall b :: 0 <= b < |Exec(s, es).bss| ==> AclList.Fits(Exec(s, es).bss[b].acl)
  {
    assert PowerSave.Buffered(s);
    PowerSave.RunBuffered(s, es);
    assert PowerSave.SlotOk(Exec(s, es), 0);
    AuthSafety.ListsSound(s, es, 0);
    forall b | 0 <= b < |s.bss|
      ensures AclList.Fits(Exec(s, es).bss[b].acl)
    {
      AuthSafety.ListsSound(s, es, b);
    }
  }

  // The counter of a BSS tells whether a port is secured in it.
  lemma CountedPort(s: Ap, counters: seq<nat>, b: nat)
    requires Shape(s) && b < |counters| && Counted(counters, s.entries, |s.entries|)
    ensures counters[b] > 0 <==> AnyPortSecured(s, b)
  {
    if AnyPortSecured(s, b) {
      var j :| 0 <= j < |s.entries| && IsClient(s.entries[j]) && s.entries[j].apidx == b && s.entries[j].portSecured;
      assert SecuredAt(s.entries[j], b);
    }
  }

  // The counter of a BSS is positive exactly when one of the first `n` stations has a secured port in it.
  predicate Counted(counters: seq<nat>, es: seq<Entry>, n: nat)
    requires n <= |es|
  {
    forall b :: 0 <= b < |counters| ==> (counters[b] > 0 <==> exists j :: 0 <= j < n && SecuredAt(es[j], b))
  }

  lemma NothingCounted(counters: seq<nat>, es: seq<Entry>)
    requires |es| >= 1 && !IsClient(es[0]) && forall b :: 0 <= b < |counters| ==> counters[b] == 0
    ensures Counted(counters, es, 1)
  {
  }

  lemma OneCounted(c: seq<nat>, c': seq<nat>, es: seq<Entry>, es': seq<Entry>, i: nat)
    requires i < |es| == |es'| && Counted(c, es, i) && es'[i].apidx < |c|
    requires forall j :: 0 <= j < i ==> es'[j] == es[j]
    requires c' == if IsClient(es'[i]) && es'[i].portSecured then c[es'[i].apidx := c[es'[i].apidx] + 1] else c
    ensures Counted(c', es', i + 1)
  {
    forall b | 0 <= b < |c'|
      ensures c'[b] > 0 <==> exists j :: 0 <= j < i + 1 && SecuredAt(es'[j], b)
    {
      if c[b] > 0 {
        var j :| 0 <= j < i && SecuredAt(es[j], b);
        assert SecuredAt(es'[j], b);
      } else {
        assert forall j :: 0 <= j < i ==> !SecuredAt(es'[j], b);
      }
    }
  }

  predicate SecuredAt(e: Entry, b: nat) {
    IsClient(e) && e.apidx == b && e.portSecured
  }

  lemma SweepLocal(s: Ap, i: nat)
    requires Shape(s) && 1 <= i < MAX_LEN_OF_MAC_TABLE
    ensures forall j :: 0 <= j < i ==> SweepEntry(s, i).entries[j] == s.entries[j]
  {
    hide SweepEntry;
    SweepEntryEffect(s, i);
  }

  lemma CleanedApidx(s: Ap, i: nat)
    requires Shape(s) && i < MAX_LEN_OF_MAC_TABLE
    ensures CleanupPsQueue(s, i).entries[i].apidx == s.entries[i].apidx
  {
  }

  // One round over the table.
  lemma UpdateAclUnfold(s: Ap, b: nat, i: nat)
    requires Shape(s) && b < |s.bss| && i < MAX_LEN_OF_MAC_TABLE
    ensures var e := s.entries[i];
            UpdateAclFrom(s, b, i) ==
              if IsClient(e) && e.apidx == b && AclRejectsEntry(s.bss[b], e.addr) then UpdateAclFrom(Delete(s, i, e.addr), b, i + 1)
              else UpdateAclFrom(s, b, i + 1)
  {
    hide Delete;
  }

  lemma UpdateAclEnds(s: Ap, b: nat)
    requires Shape(s) && b < |s.bss|
    ensures UpdateAclFrom(s, b, MAX_LEN_OF_MAC_TABLE) == s
  {
  }

  lemma LookedUp(s: Ap, addr: Mac)
    ensures Lookup(s, addr) <= |s.entries|
  {
  }

  lemma ReachedBss(s: Ap, addr: Mac)
    ensures FindBss(s.bss, addr) <= |s.bss|
  {
  }

  // After `n` packets of the station have been moved to the best-effort queue.
  ghost function Moved(s: Ap, w: nat, n: nat): (r: Ap)
    requires Shape(s) && w < MAX_LEN_OF_MAC_TABLE && n <= |s.entries[w].psQueue|
    ensures Shape(r)
  {
    EnqueueTx(SetEntry(s, w, s.entries[w].(psQueue := s.entries[w].psQueue[n..])), QID_AC_BE, s.entries[w].psQueue[..n])
  }

  lemma MovedQueue(s: Ap, w: nat, n: nat)
    requires Shape(s) && w < MAX_LEN_OF_MAC_TABLE && n <= |s.entries[w].psQueue|
    ensures Moved(s, w, n).entries[w] == s.entries[w].(psQueue := s.entries[w].psQueue[n..])
  {
  }

  lemma NothingMoved(s: Ap, w: nat)
    requires Shape(s) && w < MAX_LEN_OF_MAC_TABLE
    ensures Moved(s, w, 0) == s
  {
    var q := s.entries[w].psQueue;
    assert q[0..] == q && q[..0] == [];
    assert s.entries[w := s.entries[w].(psQueue := q)] == s.entries;
    assert s.txSwQueue[QID_AC_BE] + [] == s.txSwQueue[QID_AC_BE];
    assert s.txSwQueue[QID_AC_BE := s.txSwQueue[QID_AC_BE]] == s.txSwQueue;
  }

  lemma MovedNext(s: Ap, w: nat, n: nat)
    requires Shape(s) && w < MAX_LEN_OF_MAC_TABLE && n < |s.entries[w].psQueue|
    ensures var t := Moved(s, w, n); var p := s.entries[w].psQueue[n];
            && t.entries[w].psQueue != [] && t.entries[w].psQueue[0] == p
            && EnqueueTx(SetEntry(t, w, t.entries[w].(psQueue := t.entries[w].psQueue[1..])), QID_AC_BE, [p])
               == Moved(s, w, n + 1)
  {
    var q := s.entries[w].psQueue;
    var t := Moved(s, w, n);
    assert q[n..][1..] == q[n + 1..];
    assert q[..n + 1] == q[..n] + [q[n]];
    assert s.txSwQueue[QID_AC_BE] + q[..n] + [q[n]] == s.txSwQueue[QID_AC_BE] + q[..n + 1];
    var e := s.entries[w].(psQueue := q[n + 1..]);
    assert s.entries[w := s.entries[w].(psQueue := q[n..])][w := e] == s.entries[w := e];
  }

  lemma AllMoved(s: Ap, w: nat, n: nat)
    requires Shape(s) && w < MAX_LEN_OF_MAC_TABLE && n <= |s.entries[w].psQueue| && s.entries[w].psQueue[n..] == []
    ensures Moved(s, w, n) == ReleaseAll(s, w)
  {
    assert s.entries[w].psQueue[..n] == s.entries[w].psQueue;
  }
}
