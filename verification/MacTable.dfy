/** The MAC table: lookup, insertion and deletion of stations (common/cmm_data.c), and the primitive
    moves of packets between queues that the handlers are made of. */
module MacTable {
  import opened Types

  predicate Shape(s: Ap) {
    && |s.entries| == MAX_LEN_OF_MAC_TABLE
    && |s.txSwQueue| == NUM_OF_TX_RING && |s.hw| == NUM_OF_TX_RING
    && 1 <= |s.bss| <= HW_BEACON_MAX_NUM
    && (forall b :: 0 <= b < |s.bss| ==> |s.bss[b].timBitmaps| == WLAN_MAX_NUM_OF_TIM)
    && (forall i :: 0 <= i < |s.entries| ==> s.entries[i].apidx < |s.bss|)
  }

  // ---------- finding stations and BSSs ----------

  /** The slot holding the station with address `addr`, or the table length if there is none. */
  function LookupFrom(entries: seq<Entry>, addr: Mac, i: nat): (w: nat)
    requires i <= |entries|
    ensures i <= w <= |entries|
    ensures w < |entries| ==> entries[w].kind != EntryNone && entries[w].addr == addr
    ensures forall j :: i <= j < w ==> entries[j].kind == EntryNone || entries[j].addr != addr
    decreases |entries| - i
  {
    if i == |entries| || (entries[i].kind != EntryNone && entries[i].addr == addr) then i
    else LookupFrom(entries, addr, i + 1)
  }

  function Lookup(s: Ap, addr: Mac): nat {
    LookupFrom(s.entries, addr, 0)
  }

  /** The first vacancy at or after `i`, or the table length. */
  function VacancyFrom(entries: seq<Entry>, i: nat): (w: nat)
    requires i <= |entries|
    ensures i <= w <= |entries|
    ensures w < |entries| ==> entries[w].kind == EntryNone
    ensures forall j :: i <= j < w ==> entries[j].kind != EntryNone
    decreases |entries| - i
  {
    if i == |entries| || entries[i].kind == EntryNone then i else VacancyFrom(entries, i + 1)
  }

  /** The first BSS with address `bssid`, or their number. */
  function FindBssFrom(bss: seq<Bss>, bssid: Mac, i: nat): (b: nat)
    requires i <= |bss|
    ensures i <= b <= |bss|
    ensures b < |bss| ==> bss[b].bssid == bssid
    ensures forall j :: i <= j < b ==> bss[j].bssid != bssid
    decreases |bss| - i
  {
    if i == |bss| || bss[i].bssid == bssid then i else FindBssFrom(bss, bssid, i + 1)
  }

  function FindBss(bss: seq<Bss>, bssid: Mac): nat {
    FindBssFrom(bss, bssid, 0)
  }

  // ---------- primitive moves ----------

  function SetEntry(s: Ap, w: nat, e: Entry): (r: Ap)
    requires Shape(s) && w < |s.entries| && e.apidx < |s.bss|
    ensures Shape(r)
  {
    s.(entries := s.entries[w := e])
  }

  function SetBss(s: Ap, b: nat, x: Bss): (r: Ap)
    requires Shape(s) && b < |s.bss| && |x.timBitmaps| == WLAN_MAX_NUM_OF_TIM
    ensures Shape(r)
  {
    s.(bss := s.bss[b := x])
  }

  function TimSet(s: Ap, b: nat, aid: nat): (r: Ap)
    requires Shape(s) && b < |s.bss| && aid < MAX_LEN_OF_MAC_TABLE
    ensures Shape(r)
  {
    SetBss(s, b, s.bss[b].(timBitmaps := TimBitSet(s.bss[b].timBitmaps, aid)))
  }

  function TimClear(s: Ap, b: nat, aid: nat): (r: Ap)
    requires Shape(s) && b < |s.bss| && aid < MAX_LEN_OF_MAC_TABLE
    ensures Shape(r)
  {
    SetBss(s, b, s.bss[b].(timBitmaps := TimBitClear(s.bss[b].timBitmaps, aid)))
  }

  predicate TimMarked(s: Ap, b: nat, aid: nat)
    requires Shape(s) && b < |s.bss| && aid < MAX_LEN_OF_MAC_TABLE
  {
    TimBit(s.bss[b].timBitmaps, aid)
  }

  function Release(s: Ap, q: seq<Packet>): Ap {
    s.(released := s.released + q)
  }

  function EnqueueTx(s: Ap, qid: nat, q: seq<Packet>): (r: Ap)
    requires Shape(s) && qid < NUM_OF_TX_RING
    ensures Shape(r)
  {
    s.(txSwQueue := s.txSwQueue[qid := s.txSwQueue[qid] + q])
  }

  /** APCleanupPsQueue on the queue of slot `w`: every packet is released. */
  function CleanupPsQueue(s: Ap, w: nat): (r: Ap)
    requires Shape(s) && w < |s.entries|
    ensures Shape(r)
  {
    SetEntry(Release(s, s.entries[w].psQueue), w, s.entries[w].(psQueue := []))
  }

  // ---------- insertion and deletion ----------

  function NewEntry(s: Ap, addr: Mac, apidx: nat): Entry {
    ZeroEntry.(kind := EntryClient, addr := addr, apidx := apidx, staIdleTimeout := s.staIdleTimeout,
               assocDeadLine := MAC_TABLE_ASSOC_TIMEOUT)
  }

  predicate BssFull(b: Bss) {
    b.maxStaNum != 0 && b.staCount >= b.maxStaNum
  }

  /** MacTableInsertEntry: the station takes the first vacancy from slot 1 on.  The slot is the table
      length when the table or the BSS is full; a full BSS is noticed after the vacancy has been zeroed. */
  function Insert(s: Ap, addr: Mac, apidx: nat): (r: (Ap, nat))
    requires Shape(s) && apidx < |s.bss|
    ensures Shape(r.0)
    ensures r.0.auxAddr == s.auxAddr && r.0.auxChallenge == s.auxChallenge
    ensures r.0.mcastPsQueue == s.mcastPsQueue
    ensures r.1 == |s.entries| || (1 <= r.1 < |s.entries| && s.entries[r.1].kind == EntryNone
                                   && r.0.entries[r.1] == NewEntry(s, addr, apidx))
  {
    var none := |s.entries|;
    var i := VacancyFrom(s.entries, 1);
    if s.size >= MAX_LEN_OF_MAC_TABLE || i == |s.entries| then (s, none)
    else if BssFull(s.bss[apidx]) then (SetEntry(s, i, ZeroEntry), none)
    else
      var s1 := SetEntry(s, i, NewEntry(s, addr, apidx));
      var s2 := SetBss(s1, apidx, s1.bss[apidx].(staCount := s1.bss[apidx].staCount + 1));
      (s2.(entryClientCount := s2.entryClientCount + 1, size := s2.size + 1), i)
  }

  /** MacTableDeleteEntry: the queue is released, the address zeroed and the slot freed.  Everything else
      in the slot, and the TIM bit, stays as it was.  Nothing happens when the address does not match. */
  function Delete(s: Ap, wcid: nat, addr: Mac): (r: Ap)
    requires Shape(s)
    ensures Shape(r)
    ensures r.auxAddr == s.auxAddr && r.auxChallenge == s.auxChallenge
    ensures r.mcastPsQueue == s.mcastPsQueue
    ensures |r.entries| == |s.entries|
  {
    if wcid >= MAX_LEN_OF_MAC_TABLE || s.entries[wcid].kind == EntryNone || s.entries[wcid].addr != addr then s
    else
      var e := s.entries[wcid];
      var s1 := SetBss(s, e.apidx, s.bss[e.apidx].(staCount := s.bss[e.apidx].staCount - 1));
      var s2 := CleanupPsQueue(s1.(entryClientCount := s1.entryClientCount - 1, size := s1.size - 1), wcid);
      SetEntry(s2, wcid, s2.entries[wcid].(addr := ZERO_MAC, kind := EntryNone))
  }

  /** Deletes the station in slot `w`, if `w` is a slot. */
  function DeleteSlot(s: Ap, w: nat): (r: Ap)
    requires Shape(s)
    ensures Shape(r)
    ensures r.auxAddr == s.auxAddr && r.auxChallenge == s.auxChallenge
    ensures r.mcastPsQueue == s.mcastPsQueue
  {
    if w < |s.entries| then Delete(s, w, s.entries[w].addr) else s
  }
}
