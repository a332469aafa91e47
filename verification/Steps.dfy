/** The handlers of the access point as steps of one state machine, and runs of it.

    Each handler is one atomic step.  A step takes from its event what the driver takes from the frame,
    from the hardware or from code that is not modelled. */
module Steps {
  import opened Types
  import opened MacTable
  import AclList

  // ---------- access control ----------

  // What ApCheckAccessControlList decides for a station of BSS `b`.
  predicate AclPasses(b: Bss, addr: Mac) {
    if b.policy == 0 then true else if b.policy == 1 then addr in b.acl else addr !in b.acl
  }

  // ApUpdateAccessControlList removes exactly these stations.
  predicate AclRejectsEntry(b: Bss, addr: Mac) {
    (b.policy == 1 && addr !in b.acl) || (b.policy == 2 && addr in b.acl)
  }

  function UpdateAclFrom(s: Ap, b: nat, i: nat): (r: Ap)
    requires Shape(s) && b < |s.bss| && i <= MAX_LEN_OF_MAC_TABLE
    ensures Shape(r) && |r.bss| == |s.bss|
    ensures r.mcastPsQueue == s.mcastPsQueue
    decreases MAX_LEN_OF_MAC_TABLE - i
  {
    if i == MAX_LEN_OF_MAC_TABLE then s
    else
      var e := s.entries[i];
      if IsClient(e) && e.apidx == b && AclRejectsEntry(s.bss[b], e.addr)
      then UpdateAclFrom(Delete(s, i, e.addr), b, i + 1)
      else UpdateAclFrom(s, b, i + 1)
  }

  function UpdateAcl(s: Ap, b: nat): (r: Ap)
    requires Shape(s) && b < |s.bss|
    ensures Shape(r)
    ensures r.mcastPsQueue == s.mcastPsQueue
  {
    if s.bss[b].policy == 0 then s else UpdateAclFrom(s, b, 0)
  }

  function SetPolicy(s: Ap, b: nat, policy: nat): (r: Ap)
    requires Shape(s) && b < |s.bss|
    ensures Shape(r)
  {
    if policy > 2 then s else UpdateAcl(SetBss(s, b, s.bss[b].(policy := policy)), b)
  }

  function SetAcl(s: Ap, b: nat, acl: seq<Mac>): (r: Ap)
    requires Shape(s) && b < |s.bss|
    ensures Shape(r)
  {
    UpdateAcl(SetBss(s, b, s.bss[b].(acl := acl)), b)
  }

  function AclAdd(s: Ap, b: nat, addrs: seq<Mac>): (r: Ap)
    requires Shape(s) && b < |s.bss|
    ensures Shape(r)
  {
    if AclList.AddRefused(s.bss[b].acl) then s else SetAcl(s, b, AclList.Add(s.bss[b].acl, addrs))
  }

  function AclDel(s: Ap, b: nat, addrs: seq<Mac>): (r: Ap)
    requires Shape(s) && b < |s.bss|
    ensures Shape(r)
  {
    SetAcl(s, b, AclList.Del(s.bss[b].acl, addrs))
  }

  function AclClear(s: Ap, b: nat): (r: Ap)
    requires Shape(s) && b < |s.bss|
    ensures Shape(r)
  {
    if s.bss[b].acl == [] then s else SetAcl(s, b, [])
  }

  // ---------- sending ----------

  // What APSendPacket learns about a packet before it picks a queue for it.
  datatype SendReq = SendReq(wcid: nat, group: bool, apidx: nat, qid: nat, bufOk: bool, len: nat, etherOk: bool, eapol: bool)

  predicate ReqOk(r: SendReq) {
    r.wcid < MAX_LEN_OF_MAC_TABLE && r.qid < NUM_OF_TX_RING
  }

  // The BSS the packet belongs to.
  function BssOf(s: Ap, r: SendReq): (b: nat)
    requires Shape(s) && ReqOk(r)
    ensures b < |s.bss|
  {
    if r.wcid == MCAST_WCID then (if r.apidx < |s.bss| then r.apidx else 0) else s.entries[r.wcid].apidx
  }

  // The packet is released before any queue is considered.
  predicate Refused(s: Ap, r: SendReq)
    requires Shape(s) && ReqOk(r)
  {
    var e := s.entries[r.wcid];
    var b := s.bss[BssOf(s, r)];
    || !r.bufOk || r.len <= 14 || !r.etherOk
    || (!IsClient(e) && r.wcid != MCAST_WCID)
    || (r.wcid == MCAST_WCID && s.entryClientCount == 0)
    || (NeedsPort(b) && !r.eapol && !(if r.wcid == MCAST_WCID then b.portSecured else e.portSecured))
  }

  predicate Sleeping(e: Entry) {
    e.psMode == PwrSave && IsClient(e) && e.sst == Assoc
  }

  function Given(s: Ap, p: Packet): Ap {
    s.(given := s.given + [p])
  }

  /** APInsertPsQueue. */
  function InsertPsQueue(s: Ap, p: Packet, w: nat): (r: Ap)
    requires Shape(s) && w < MAX_LEN_OF_MAC_TABLE
    ensures Shape(r)
  {
    var e := s.entries[w];
    if |e.psQueue| >= MAX_PACKETS_IN_PS_QUEUE then Release(s, [p])
    else TimSet(SetEntry(s, w, e.(psQueue := e.psQueue + [p])), e.apidx, w)
  }

  /** APSendPacket from the choice of the queue on. */
  function Deliver(s: Ap, r: SendReq, p: Packet): (t: Ap)
    requires Shape(s) && ReqOk(r)
    ensures Shape(t)
  {
    if r.group && s.fAnyStationInPsm then
      if |s.mcastPsQueue| >= MAX_PACKETS_IN_MCAST_PS_QUEUE then Release(s, [p])
      else TimSet(s.(mcastPsQueue := [p] + s.mcastPsQueue), BssOf(s, r), 0)
    else if Sleeping(s.entries[r.wcid]) then InsertPsQueue(s, p, r.wcid)
    else if |s.txSwQueue[r.qid]| >= s.txSwQMaxLen then Release(s, [p])
    else EnqueueTx(s, r.qid, [p])
  }

  function PacketOf(s: Ap, r: SendReq): Packet {
    Packet(|s.given|, r.wcid)
  }

  /** APSendPacket. */
  function Send(s: Ap, r: SendReq): (t: Ap)
    requires Shape(s) && ReqOk(r)
    ensures Shape(t)
  {
    var p := PacketOf(s, r);
    if Refused(s, r) then Release(Given(s, p), [p]) else Deliver(Given(s, p), r, p)
  }

  // ---------- power save ----------

  /** Moves the oldest packet of the station to TxSwQueue[QID_AC_BE], marked MoreData if others remain. */
  function ReleaseOne(s: Ap, w: nat): (r: Ap)
    requires Shape(s) && w < MAX_LEN_OF_MAC_TABLE
    ensures Shape(r)
  {
    var e := s.entries[w];
    if e.psQueue == [] then s      // a null frame is sent instead
    else
      var s1 := SetEntry(s, w, e.(psQueue := e.psQueue[1..]));
      var s2 := if |e.psQueue| > 1 then s1.(more := s1.more + {e.psQueue[0]}) else s1;
      EnqueueTx(s2, QID_AC_BE, [e.psQueue[0]])
  }

  /** Moves all packets of the station to TxSwQueue[QID_AC_BE]. */
  function ReleaseAll(s: Ap, w: nat): (r: Ap)
    requires Shape(s) && w < MAX_LEN_OF_MAC_TABLE
    ensures Shape(r)
  {
    EnqueueTx(SetEntry(s, w, s.entries[w].(psQueue := [])), QID_AC_BE, s.entries[w].psQueue)
  }

  // Once the queue of the station is empty its TIM bit is cleared.
  function ClearIfEmpty(s: Ap, w: nat): (r: Ap)
    requires Shape(s) && w < MAX_LEN_OF_MAC_TABLE
    ensures Shape(r)
  {
    var e := s.entries[w];
    if w > 0 && e.psQueue == [] then SetEntry(TimClear(s, e.apidx, w), w, e.(psQIdleCount := 0)) else s
  }

  /** APHandleRxPsPoll; `isActive` tells a wake-up from a PS-Poll. */
  function HandlePsPoll(s: Ap, addr: Mac, aid: nat, isActive: bool): (r: Ap)
    requires Shape(s) && aid < MAX_LEN_OF_MAC_TABLE
    ensures Shape(r)
    ensures r.mcastPsQueue == s.mcastPsQueue
  {
    if s.entries[aid].addr != addr then s
    else
      var s1 := SetEntry(s, aid, s.entries[aid].(continueTxFailCnt := 0));
      ClearIfEmpty(if isActive then ReleaseAll(s1, aid) else ReleaseOne(s1, aid), aid)
  }

  /** APPsIndicate. */
  function PsIndicate(s: Ap, addr: Mac, wcid: nat, psm: PsMode): (r: Ap)
    requires Shape(s)
    ensures Shape(r)
    ensures r.mcastPsQueue == s.mcastPsQueue
  {
    if wcid >= MAX_LEN_OF_MAC_TABLE then s
    else
      var e := s.entries[wcid];
      var s1 := SetEntry(s, wcid, e.(noDataIdleCount := 0, psMode := psm));
      if e.psMode == PwrSave && psm == PwrActive then HandlePsPoll(s1, addr, wcid, true) else s1
  }

  // ---------- class 2 and class 3 errors ----------

  // APCheckClass2Class3Error lets the frame pass.
  predicate ClassFilterPasses(s: Ap, wcid: nat)
    requires Shape(s)
  {
    wcid < MAX_LEN_OF_MAC_TABLE && s.entries[wcid].sst == Assoc
  }

  function ClassError(s: Ap, wcid: nat, addr2: Mac): (r: Ap)
    requires Shape(s)
    ensures Shape(r)
    ensures r.mcastPsQueue == s.mcastPsQueue
  {
    if wcid >= MAX_LEN_OF_MAC_TABLE then s
    else if s.entries[wcid].sst == Auth || IsClient(s.entries[wcid]) then Delete(s, wcid, addr2)
    else s
  }

  /** A ToDS data frame: the class filter, then the power-management bit. */
  function RxData(s: Ap, wcid: nat, addr2: Mac, psm: PsMode): (r: Ap)
    requires Shape(s)
    ensures Shape(r)
  {
    if ClassFilterPasses(s, wcid) then PsIndicate(s, addr2, wcid, psm) else ClassError(s, wcid, addr2)
  }

  // ---------- authentication ----------

  const AUTH_MODE_OPEN := 0
  const AUTH_MODE_KEY := 1

  datatype AuthFrame = AuthFrame(addr1: Mac, addr2: Mac, wcid: nat, alg: nat, seqNo: nat, wep: bool, text: Challenge, devUp: bool)

  // The station in the slot found for the sender belongs to the addressed BSS; otherwise it is deleted.
  function Rehome(s: Ap, w: nat, addr1: Mac): (r: (Ap, nat))
    requires Shape(s) && w <= |s.entries|
    ensures Shape(r.0) && |r.0.bss| == |s.bss| && r.1 <= |r.0.entries|
    ensures r.0.auxAddr == s.auxAddr && r.0.auxChallenge == s.auxChallenge
    ensures r.0.mcastPsQueue == s.mcastPsQueue
  {
    if w < |s.entries| && IsClient(s.entries[w]) && s.bss[s.entries[w].apidx].bssid != addr1
    then (DeleteSlot(s, w), |s.entries|)
    else (s, w)
  }

  predicate AcceptsOpen(b: Bss) {
    b.authMode != AuthShared
  }

  predicate AcceptsKey(b: Bss) {
    b.authMode == AuthShared || b.authMode == AuthAutoSwitch
  }

  // The slot of the station, inserting it if it is not in the table.
  function Ensure(s: Ap, w: nat, addr: Mac, b: nat): (r: (Ap, nat))
    requires Shape(s) && w <= |s.entries| && b < |s.bss|
    ensures Shape(r.0) && r.1 <= |r.0.entries|
    ensures r.0.auxAddr == s.auxAddr && r.0.auxChallenge == s.auxChallenge
    ensures r.0.mcastPsQueue == s.mcastPsQueue
  {
    if w < |s.entries| then (s, w) else Insert(s, addr, b)
  }

  function SetSst(s: Ap, w: nat, sst: Sst): (r: Ap)
    requires Shape(s) && w < |s.entries|
    ensures Shape(r)
    ensures r.bss == s.bss
    ensures r.auxAddr == s.auxAddr && r.auxChallenge == s.auxChallenge
  {
    SetEntry(s, w, s.entries[w].(sst := sst))
  }

  // The answer to an authentication request for BSS `b` once the slot `w` of the sender is known.
  function AuthReqAt(s: Ap, w: nat, b: nat, f: AuthFrame, nonce: Challenge): (r: Ap)
    requires Shape(s) && w <= |s.entries| && b < |s.bss|
    ensures Shape(r)
    ensures r.mcastPsQueue == s.mcastPsQueue
  {
    if !AclPasses(s.bss[b], f.addr2) then DeleteSlot(s, w)
    else if f.alg == AUTH_MODE_OPEN && AcceptsOpen(s.bss[b]) then
      var (s1, v) := Ensure(s, w, f.addr2, b);
      if v < |s1.entries| then SetSst(s1, v, Auth) else s1
    else if f.alg == AUTH_MODE_KEY && AcceptsKey(s.bss[b]) then
      var (s1, v) := Ensure(s, w, f.addr2, b);
      if v < |s1.entries| then SetSst(s1, v, NotAuth).(auxAddr := f.addr2, auxChallenge := nonce) else s1
    else DeleteSlot(s, w)
  }

  /** APPeerAuthReqAtIdleAction; `nonce` is the challenge drawn if one is issued. */
  function AuthReq(s: Ap, f: AuthFrame, nonce: Challenge): (r: Ap)
    requires Shape(s)
    ensures Shape(r)
    ensures r.mcastPsQueue == s.mcastPsQueue
  {
    var b := FindBss(s.bss, f.addr1);
    if b == |s.bss| || !f.devUp then s
    else
      var (s1, w) := Rehome(s, Lookup(s, f.addr2), f.addr1);
      AuthReqAt(s1, w, b, f, nonce)
  }

  /** APPeerAuthConfirmAction. */
  function AuthConfirm(s: Ap, f: AuthFrame): (r: Ap)
    requires Shape(s)
    ensures Shape(r)
    ensures r.mcastPsQueue == s.mcastPsQueue
  {
    var b := FindBss(s.bss, f.addr1);
    if b == |s.bss| || !f.devUp || f.wcid >= MAX_LEN_OF_MAC_TABLE then s
    else
      var (s1, w) := Rehome(s, f.wcid, f.addr1);
      if w < |s1.entries| && f.addr2 == s1.auxAddr && f.wep && f.text == s1.auxChallenge
      then SetSst(s1, w, Auth)
      else DeleteSlot(s1, w)
  }

  /** Dispatch by sequence number after APPeerAuthSanity. */
  function RxAuth(s: Ap, f: AuthFrame, nonce: Challenge): (r: Ap)
    requires Shape(s)
    ensures Shape(r)
    ensures r.mcastPsQueue == s.mcastPsQueue
  {
    if f.seqNo == 1 && (f.alg == AUTH_MODE_OPEN || f.alg == AUTH_MODE_KEY) then AuthReq(s, f, nonce)
    else if f.seqNo == 3 && f.alg == AUTH_MODE_KEY then AuthConfirm(s, f)
    else s
  }

  // ---------- association ----------

  // The outcomes of the checks on an association request that are not modelled.
  datatype AssocFrame = AssocFrame(addr2: Mac, sane: bool, ssidOk: bool, rateOk: bool, rsnOk: bool, hasRsn: bool, ralink: bool)

  // APBuildAssociation reports MLME_SUCCESS.
  predicate AssocSucceeds(s: Ap, w: nat, f: AssocFrame)
    requires Shape(s) && w < |s.entries|
  {
    var e := s.entries[w];
    && f.rateOk && (e.sst == Auth || e.sst == Assoc) && f.rsnOk && w != 0
    && (f.hasRsn || s.bss[e.apidx].authMode != AuthWpa)
  }

  /** APBuildAssociation. */
  function BuildAssociation(s: Ap, w: nat, f: AssocFrame): (r: Ap)
    requires Shape(s) && w < |s.entries|
    ensures Shape(r)
    ensures r.mcastPsQueue == s.mcastPsQueue
  {
    var e := s.entries[w];
    if AssocSucceeds(s, w, f) then
      SetEntry(s, w, e.(noDataIdleCount := 0, sst := Assoc, ralinkChipset := f.ralink,
                        portSecured := !NeedsPort(s.bss[e.apidx])))
    else if f.rateOk && (e.sst == Auth || e.sst == Assoc) then SetEntry(s, w, e.(noDataIdleCount := 0))
    else s
  }

  // The branch of the association handler that answers a station the access control list rejects.
  predicate AclRejectBranch(s: Ap, f: AssocFrame)
    requires Shape(s)
  {
    var w := Lookup(s, f.addr2);
    f.sane && w < |s.entries| && f.ssidOk && !AclPasses(s.bss[s.entries[w].apidx], f.addr2)
  }

  /** ap_cmm_peer_assoc_req_action. */
  function AssocReq(s: Ap, f: AssocFrame): (r: Ap)
    requires Shape(s)
    ensures Shape(r)
    ensures r.mcastPsQueue == s.mcastPsQueue
  {
    var w := Lookup(s, f.addr2);
    if w == |s.entries| || !f.sane || !f.ssidOk then s
    else
      var s1 := BuildAssociation(s, w, f);
      if AclRejectBranch(s, f) then s1
      else if AssocSucceeds(s, w, f) then SetEntry(s1, w, s1.entries[w].(psMode := PwrActive))
      else s1
  }

  function PeerDisassoc(s: Ap, wcid: nat, addr2: Mac): (r: Ap)
    requires Shape(s)
    ensures Shape(r)
  {
    if Lookup(s, addr2) == |s.entries| then s else Delete(s, wcid, addr2)
  }

  function KickOut(s: Ap, addr: Mac): (r: Ap)
    requires Shape(s)
    ensures Shape(r)
  {
    Delete(s, Lookup(s, addr), addr)
  }

  // ---------- the one-second sweep ----------

  // The silence and failure counters say that the station is gone.
  predicate AgedOut(s: Ap, e: Entry) {
    || e.noDataIdleCount >= e.staIdleTimeout
    || (e.continueTxFailCnt >= s.entryLifeCheck && e.psMode != PwrSave)
  }

  // The counters of a client at the start of its turn.
  function Tick(e: Entry): Entry {
    e.(stationKeepAliveCount := if e.noDataIdleCount == 0 then 0 else e.stationKeepAliveCount,
       noDataIdleCount := e.noDataIdleCount + 1)
  }

  // Keep-alive: the first silent second past the limit probes the station, through the TIM bit if it sleeps.
  function KeepAlive(s: Ap, i: nat): (r: Ap)
    requires Shape(s) && i < MAX_LEN_OF_MAC_TABLE
    ensures Shape(r)
    ensures r.mcastPsQueue == s.mcastPsQueue
  {
    var e := s.entries[i];
    var limit := s.bss[e.apidx].stationKeepAliveTime;
    if limit == 0 || e.noDataIdleCount < limit then s
    else
      var n := e.stationKeepAliveCount;
      var s1 := SetEntry(s, i, e.(stationKeepAliveCount := if n > 0 && n + 1 >= limit then 0 else n + 1));
      if n == 0 && e.psMode == PwrSave then TimSet(s1, e.apidx, i) else s1
  }

  // Garbage collection of a power-save queue that has been idle for three sweeps.
  function CollectPsQueue(s: Ap, i: nat): (r: Ap)
    requires Shape(s) && i < MAX_LEN_OF_MAC_TABLE
    ensures Shape(r)
    ensures r.mcastPsQueue == s.mcastPsQueue
  {
    var e := s.entries[i];
    if e.psQueue == [] then SetEntry(s, i, e.(psQIdleCount := 0))
    else if e.psQIdleCount + 1 > 2 then
      var s1 := CleanupPsQueue(s, i);
      TimClear(SetEntry(s1, i, s1.entries[i].(psQIdleCount := 0)), e.apidx, i)
    else SetEntry(s, i, e.(psQIdleCount := e.psQIdleCount + 1))
  }

  /** The turn of slot `i` in MacTableMaintenance. */
  function SweepEntry(s: Ap, i: nat): (r: Ap)
    requires Shape(s) && i < MAX_LEN_OF_MAC_TABLE
    ensures Shape(r)
    ensures r.mcastPsQueue == s.mcastPsQueue
  {
    var e0 := s.entries[i];
    if !IsClient(e0) then s
    else
      var e := Tick(e0);
      var s1 := SetEntry(s, i, e);
      if e.sst != Assoc && e.noDataIdleCount >= e.assocDeadLine then DeleteSlot(s1, i)
      else
        var s2 := KeepAlive(if e.psMode == PwrSave then s1.(fAnyStationInPsm := true) else s1, i);
        if AgedOut(s2, e) then DeleteSlot(s2, i)
        else
          var s3 := CollectPsQueue(s2, i);
          if e.ralinkChipset then s3 else s3.(fAllStationAsRalink := false)
  }

  function SweepFrom(s: Ap, i: nat): (r: Ap)
    requires Shape(s) && i <= MAX_LEN_OF_MAC_TABLE
    ensures Shape(r)
    ensures r.mcastPsQueue == s.mcastPsQueue
    decreases MAX_LEN_OF_MAC_TABLE - i
  {
    if i == MAX_LEN_OF_MAC_TABLE then s else SweepFrom(SweepEntry(s, i), i + 1)
  }

  // Some station of BSS `b` has a secured port.
  predicate AnyPortSecured(s: Ap, b: nat) {
    exists i :: 0 <= i < |s.entries| && IsClient(s.entries[i]) && s.entries[i].apidx == b && s.entries[i].portSecured
  }

  function PortsFrom(s: Ap, b: nat): (r: Ap)
    requires Shape(s) && b <= |s.bss|
    ensures Shape(r)
    ensures r.mcastPsQueue == s.mcastPsQueue
    decreases |s.bss| - b
  {
    if b == |s.bss| then s else PortsFrom(SetBss(s, b, s.bss[b].(portSecured := AnyPortSecured(s, b))), b + 1)
  }

  function BcmcClearFrom(s: Ap, b: nat): (r: Ap)
    requires Shape(s) && b <= |s.bss|
    ensures Shape(r)
    ensures r.mcastPsQueue == s.mcastPsQueue
    decreases |s.bss| - b
  {
    if b == |s.bss| then s else BcmcClearFrom(TimClear(s, b, 0), b + 1)
  }

  // Garbage collection of the multicast queue.
  function CollectMcast(s: Ap): (r: Ap)
    requires Shape(s)
    ensures Shape(r)
  {
    if s.mcastPsQueue == [] then s.(mcastPsQIdleCount := 0)
    else if s.mcastPsQIdleCount + 1 > 1 then
      BcmcClearFrom(Release(s, s.mcastPsQueue).(mcastPsQueue := [], mcastPsQIdleCount := 0), 0)
    else s.(mcastPsQIdleCount := s.mcastPsQIdleCount + 1)
  }

  /** MacTableMaintenance. */
  function Sweep(s: Ap): (r: Ap)
    requires Shape(s)
    ensures Shape(r)
  {
    CollectMcast(PortsFrom(SweepFrom(s.(fAnyStationInPsm := false, fAllStationAsRalink := true), 1), 0))
  }

  // ---------- delivery of multicast at a DTIM ----------

  /** The loop that moves the multicast queue to the head of TxSwQueue[QID_AC_BE]; `count` packets have
      been moved so far. */
  function DtimLoop(s: Ap, count: nat): (r: Ap)
    requires Shape(s)
    ensures Shape(r)
    decreases |s.mcastPsQueue|
  {
    if s.mcastPsQueue == [] || |s.txSwQueue[QID_AC_BE]| > s.txSwQMaxLen + MAX_PACKETS_IN_MCAST_PS_QUEUE then s
    else
      var p := s.mcastPsQueue[0];
      var s1 := s.(mcastPsQueue := s.mcastPsQueue[1..],
                   more := if count > 0 then s.more + {p} else s.more,
                   txSwQueue := s.txSwQueue[QID_AC_BE := [p] + s.txSwQueue[QID_AC_BE]]);
      DtimLoop(s1, count + 1)
  }

  /** The DTIM part of tbtt_tasklet. */
  function Dtim(s: Ap): (r: Ap)
    requires Shape(s)
    ensures Shape(r)
  {
    var s1 := DtimLoop(s, 0);
    (if s1.mcastPsQueue == [] then BcmcClearFrom(s1, 0) else s1).(mcastPsQIdleCount := 0)
  }

  // ---------- the hardware ----------

  /** RTMPDeQueuePacket takes the head of a queue and passes it to the hardware or releases it. */
  function Dequeue(s: Ap, qid: nat, ok: bool): (r: Ap)
    requires Shape(s) && qid < NUM_OF_TX_RING
    ensures Shape(r)
  {
    var q := s.txSwQueue[qid];
    if q == [] then s
    else
      var s1 := s.(txSwQueue := s.txSwQueue[qid := q[1..]]);
      if ok then s1.(hw := s1.hw[qid := s1.hw[qid] + [q[0]]]) else Release(s1, [q[0]])
  }

  /** The transmit status of a frame to `wcid`. */
  function TxStatus(s: Ap, wcid: nat, ok: bool): (r: Ap)
    requires Shape(s)
    ensures Shape(r)
  {
    if wcid >= MAX_LEN_OF_MAC_TABLE then s
    else
      var e := s.entries[wcid];
      SetEntry(s, wcid, if ok then e.(noDataIdleCount := 0, continueTxFailCnt := 0)
                        else e.(continueTxFailCnt := e.continueTxFailCnt + 1))
  }

  // ---------- events and runs ----------

  datatype Event =
    | EvSend(req: SendReq)
    | EvPsPoll(aid: nat, addr: Mac)
    | EvRxData(wcid: nat, addr: Mac, psm: PsMode)
    | EvRxAction(wcid: nat, addr: Mac, psm: PsMode)
    | EvAuth(frame: AuthFrame, nonce: Challenge)
    | EvAssoc(assoc: AssocFrame)
    | EvDeauth(wcid: nat, addr: Mac)
    | EvDisassoc(wcid: nat, addr: Mac)
    | EvKickOut(addr: Mac)
    | EvPolicy(b: nat, policy: nat)
    | EvAclAdd(b: nat, addrs: seq<Mac>)
    | EvAclDel(b: nat, addrs: seq<Mac>)
    | EvAclClear(b: nat)
    | EvSweep
    | EvDtim
    | EvDequeue(qid: nat, ok: bool)
    | EvTxStatus(wcid: nat, ok: bool)

  // The hardware reports the slot of the sender of a frame, or a number outside the table.
  predicate FrameFrom(s: Ap, wcid: nat, addr: Mac)
    requires Shape(s)
  {
    wcid < MAX_LEN_OF_MAC_TABLE ==> IsClient(s.entries[wcid]) && s.entries[wcid].addr == addr
  }

  // What the callers of the handlers guarantee.
  predicate Enabled(s: Ap, e: Event) {
    && Shape(s)
    && match e
       case EvSend(r) => ReqOk(r) && (r.group ==> r.wcid == MCAST_WCID)
       case EvPsPoll(_, _) => true
       case EvRxData(w, a, _) => FrameFrom(s, w, a)
       case EvRxAction(w, a, _) => FrameFrom(s, w, a)
       case EvAuth(f, _) => FrameFrom(s, f.wcid, f.addr2)
       case EvPolicy(b, _) => b < |s.bss|
       case EvAclAdd(b, _) => b < |s.bss|
       case EvAclDel(b, _) => b < |s.bss|
       case EvAclClear(b) => b < |s.bss|
       case EvDequeue(q, _) => q < NUM_OF_TX_RING
       case _ => true
  }

  function Step(s: Ap, e: Event): (r: Ap)
    requires Enabled(s, e)
    ensures Shape(r)
  {
    match e
    case EvSend(r) => Send(s, r)
    case EvPsPoll(aid, a) => if aid < MAX_LEN_OF_MAC_TABLE then HandlePsPoll(s, a, aid, false) else s
    case EvRxData(w, a, psm) => RxData(s, w, a, psm)
    case EvRxAction(w, a, psm) => PsIndicate(s, a, w, psm)
    case EvAuth(f, nonce) => RxAuth(s, f, nonce)
    case EvAssoc(f) => AssocReq(s, f)
    case EvDeauth(w, a) => Delete(s, w, a)
    case EvDisassoc(w, a) => PeerDisassoc(s, w, a)
    case EvKickOut(a) => KickOut(s, a)
    case EvPolicy(b, policy) => SetPolicy(s, b, policy)
    case EvAclAdd(b, addrs) => AclAdd(s, b, addrs)
    case EvAclDel(b, addrs) => AclDel(s, b, addrs)
    case EvAclClear(b) => AclClear(s, b)
    case EvSweep => Sweep(s)
    case EvDtim => Dtim(s)
    case EvDequeue(q, ok) => Dequeue(s, q, ok)
    case EvTxStatus(w, ok) => TxStatus(s, w, ok)
  }

  // The events of the run can happen one after the other from `s`.
  predicate Run(s: Ap, es: seq<Event>)
    decreases es
  {
    Shape(s) && (es == [] || (Enabled(s, es[0]) && Run(Step(s, es[0]), es[1..])))
  }

  function Exec(s: Ap, es: seq<Event>): (r: Ap)
    requires Run(s, es)
    ensures Shape(r)
    decreases es
  {
    if es == [] then s else Exec(Step(s, es[0]), es[1..])
  }

  // The adapter after initialisation: an empty table, empty queues and no TIM bit.
  ghost predicate Init(s: Ap) {
    && Shape(s)
    && (forall i :: 0 <= i < |s.entries| ==> s.entries[i] == ZeroEntry)
    && (forall q :: 0 <= q < |s.txSwQueue| ==> s.txSwQueue[q] == [])
    && (forall b :: 0 <= b < |s.bss| ==> s.bss[b].staCount == 0 && s.bss[b].policy <= 2)
    && (forall b, j: nat :: 0 <= b < |s.bss| && j / 8 < WLAN_MAX_NUM_OF_TIM ==> !TimBit(s.bss[b].timBitmaps, j))
    && s.mcastPsQueue == [] && s.size == 0 && s.entryClientCount == 0
    && s.auxAddr == ZERO_MAC && s.more == {}
    && s.given == [] && s.released == [] && forall q :: 0 <= q < |s.hw| ==> s.hw[q] == []
  }
}
