/** Who is in the MAC table: addresses are unique, every station belongs to the BSS it addressed and passes
    the access control list of that BSS, and the station counters are exact. */
module Membership {
  import opened Types
  import opened MacTable
  import opened Steps

  // Stations of BSS `b` among the first `n` slots.
  function Members(entries: seq<Entry>, n: nat, b: nat): nat
    requires n <= |entries|
  {
    if n == 0 then 0
    else Members(entries, n - 1, b) + if IsClient(entries[n - 1]) && entries[n - 1].apidx == b then 1 else 0
  }

  function Clients(entries: seq<Entry>, n: nat): nat
    requires n <= |entries|
  {
    if n == 0 then 0 else Clients(entries, n - 1) + if IsClient(entries[n - 1]) then 1 else 0
  }

  // The counters count, and no BSS has more stations than it may have.
  predicate Counted(s: Ap) {
    && Shape(s)
    && (forall b :: 0 <= b < |s.bss| ==> s.bss[b].staCount == Members(s.entries, |s.entries|, b))
    && (forall b :: 0 <= b < |s.bss| && s.bss[b].maxStaNum != 0 ==> s.bss[b].staCount <= s.bss[b].maxStaNum)
    && s.size == s.entryClientCount == Clients(s.entries, |s.entries|)
  }

  // The station in slot `i` addressed this BSS, and the access control list of the BSS lets it in.
  predicate Welcome(s: Ap, i: nat)
    requires Shape(s) && i < MAX_LEN_OF_MAC_TABLE
  {
    var e := s.entries[i];
    IsClient(e) ==>
      && i >= 1
      && FindBss(s.bss, s.bss[e.apidx].bssid) == e.apidx
      && AclPasses(s.bss[e.apidx], e.addr)
  }

  predicate UniqueAddrs(s: Ap) {
    forall i, j :: 0 <= i < j < |s.entries| && IsClient(s.entries[i]) && IsClient(s.entries[j]) ==> s.entries[i].addr != s.entries[j].addr
  }

  predicate Stations(s: Ap) {
    && Counted(s)
    && UniqueAddrs(s)
    && (forall i :: 0 <= i < MAX_LEN_OF_MAC_TABLE ==> Welcome(s, i))
    && (forall b :: 0 <= b < |s.bss| ==> s.bss[b].policy <= 2)
  }

  // ---------- relations between the states before and after a step ----------

  // The configuration of a BSS.
  predicate SameConfig(x: Bss, y: Bss) {
    && x.bssid == y.bssid && x.authMode == y.authMode && x.ieee8021X == y.ieee8021X
    && x.maxStaNum == y.maxStaNum && x.policy == y.policy && x.acl == y.acl
  }

  predicate SameId(e: Entry, f: Entry) {
    e.kind == f.kind && e.addr == f.addr && e.apidx == f.apidx && e.sst == f.sst
  }

  // No station comes, goes or changes its state.
  predicate Keeps(s: Ap, t: Ap) {
    && Shape(s) && Shape(t) && |t.bss| == |s.bss|
    && (forall b :: 0 <= b < |s.bss| ==> SameConfig(s.bss[b], t.bss[b]) && t.bss[b].staCount == s.bss[b].staCount)
    && (forall i :: 0 <= i < MAX_LEN_OF_MAC_TABLE ==> SameId(s.entries[i], t.entries[i]))
    && t.size == s.size && t.entryClientCount == s.entryClientCount
    && t.auxAddr == s.auxAddr && t.auxChallenge == s.auxChallenge
  }

  // Stations may go, but none comes or changes its state.
  predicate Shrinks(s: Ap, t: Ap) {
    && Shape(s) && Shape(t) && |t.bss| == |s.bss|
    && (forall b :: 0 <= b < |s.bss| ==> SameConfig(s.bss[b], t.bss[b]))
    && (forall i :: 0 <= i < MAX_LEN_OF_MAC_TABLE ==> SameId(s.entries[i], t.entries[i]) || !IsClient(t.entries[i]))
    && t.auxAddr == s.auxAddr && t.auxChallenge == s.auxChallenge
  }

  predicate Good(s: Ap, t: Ap) {
    Shrinks(s, t) && (Stations(s) ==> Stations(t))
  }

  lemma GoodTrans(s: Ap, t: Ap, u: Ap)
    requires Good(s, t) && Good(t, u)
    ensures Good(s, u)
  {
    hide Stations;
    forall i | 0 <= i < MAX_LEN_OF_MAC_TABLE
      ensures SameId(s.entries[i], u.entries[i]) || !IsClient(u.entries[i])
    {
      assert SameId(s.entries[i], t.entries[i]) || !IsClient(t.entries[i]);
      assert SameId(t.entries[i], u.entries[i]) || !IsClient(u.entries[i]);
    }
    forall b | 0 <= b < |s.bss|
      ensures SameConfig(s.bss[b], u.bss[b])
    {
      assert SameConfig(s.bss[b], t.bss[b]) && SameConfig(t.bss[b], u.bss[b]);
    }
  }

  lemma {:induction false} MembersSame(es: seq<Entry>, fs: seq<Entry>, n: nat, b: nat)
    requires n <= |es| == |fs|
    requires forall i :: 0 <= i < n ==> es[i].kind == fs[i].kind && es[i].apidx == fs[i].apidx
    ensures Members(es, n, b) == Members(fs, n, b) && Clients(es, n) == Clients(fs, n)
  {
    if n > 0 {
      MembersSame(es, fs, n - 1, b);
    }
  }

  lemma {:induction false} MembersUpdate(es: seq<Entry>, n: nat, i: nat, e: Entry, b: nat)
    requires i < |es| && n <= |es|
    ensures Members(es[i := e], n, b) + (if i < n && IsClient(es[i]) && es[i].apidx == b then 1 else 0)
         == Members(es, n, b) + (if i < n && IsClient(e) && e.apidx == b then 1 else 0)
    ensures Clients(es[i := e], n) + (if i < n && IsClient(es[i]) then 1 else 0)
         == Clients(es, n) + (if i < n && IsClient(e) then 1 else 0)
  {
    if n > 0 {
      MembersUpdate(es, n - 1, i, e, b);
    }
  }

  // The search for a BSS looks at the addresses only.
  lemma {:induction false} FindSame(xs: seq<Bss>, ys: seq<Bss>, bssid: Mac, i: nat)
    requires i <= |xs| == |ys| && forall b :: 0 <= b < |xs| ==> xs[b].bssid == ys[b].bssid
    ensures FindBssFrom(xs, bssid, i) == FindBssFrom(ys, bssid, i)
    decreases |xs| - i
  {
    if i < |xs| {
      FindSame(xs, ys, bssid, i + 1);
    }
  }

  // A station that was welcome and has not changed still is.
  lemma StillWelcome(s: Ap, t: Ap, i: nat)
    requires Shape(s) && Shape(t) && i < MAX_LEN_OF_MAC_TABLE && Welcome(s, i) && |t.bss| == |s.bss|
    requires SameId(s.entries[i], t.entries[i]) || !IsClient(t.entries[i])
    requires forall b :: 0 <= b < |s.bss| ==> s.bss[b].bssid == t.bss[b].bssid
    requires var b := s.entries[i].apidx; s.bss[b].policy == t.bss[b].policy && s.bss[b].acl == t.bss[b].acl
    ensures Welcome(t, i)
  {
    FindSame(s.bss, t.bss, s.bss[s.entries[i].apidx].bssid, 0);
  }

  lemma KeepsGood(s: Ap, t: Ap)
    requires Keeps(s, t)
    ensures Good(s, t)
  {
    if Stations(s) {
      forall b | 0 <= b < |s.bss|
        ensures t.bss[b].staCount == Members(t.entries, |t.entries|, b)
        ensures t.bss[b].maxStaNum != 0 ==> t.bss[b].staCount <= t.bss[b].maxStaNum
      {
        MembersSame(s.entries, t.entries, |s.entries|, b);
        assert SameConfig(s.bss[b], t.bss[b]);
      }
      MembersSame(s.entries, t.entries, |s.entries|, 0);
      WelcomeAll(s, t);
    }
  }

  lemma WelcomeAll(s: Ap, t: Ap)
    requires Shrinks(s, t) && Stations(s)
    ensures forall i :: 0 <= i < MAX_LEN_OF_MAC_TABLE ==> Welcome(t, i)
    ensures UniqueAddrs(t)
    ensures forall b :: 0 <= b < |t.bss| ==> t.bss[b].policy <= 2
  {
    assert forall b :: 0 <= b < |s.bss| ==> SameConfig(s.bss[b], t.bss[b]);
    forall i | 0 <= i < MAX_LEN_OF_MAC_TABLE
      ensures Welcome(t, i)
    {
      StillWelcome(s, t, i);
    }
  }

  // ---------- the primitive steps ----------

  lemma DeleteGood(s: Ap, w: nat, addr: Mac)
    requires Shape(s)
    ensures Good(s, Delete(s, w, addr))
  {
    var t := Delete(s, w, addr);
    assert Shrinks(s, t);
    if Stations(s) {
      WelcomeAll(s, t);
      DeleteCounted(s, w, addr);
    }
  }

  lemma DeleteCounted(s: Ap, w: nat, addr: Mac)
    requires Counted(s)
    ensures Counted(Delete(s, w, addr))
  {
    var t := Delete(s, w, addr);
    if t != s {
      assert t.entries == s.entries[w := t.entries[w]];
      forall b | 0 <= b < |s.bss|
        ensures t.bss[b].staCount == Members(t.entries, |t.entries|, b)
        ensures t.bss[b].maxStaNum != 0 ==> t.bss[b].staCount <= t.bss[b].maxStaNum
      {
        MembersUpdate(s.entries, |s.entries|, w, t.entries[w], b);
      }
      MembersUpdate(s.entries, |s.entries|, w, t.entries[w], 0);
    }
  }

  lemma DeleteFrame(s: Ap, w: nat)
    requires Shape(s) && w < MAX_LEN_OF_MAC_TABLE
    ensures var t := Delete(s, w, s.entries[w].addr);
            && |t.bss| == |s.bss|
            && (forall b :: 0 <= b < |s.bss| ==> SameConfig(s.bss[b], t.bss[b]))
            && (forall j :: 0 <= j < MAX_LEN_OF_MAC_TABLE && j != w ==> t.entries[j] == s.entries[j])
            && !IsClient(t.entries[w]) && t.entries[w].apidx == s.entries[w].apidx
  {
  }

  lemma DeleteSlotGood(s: Ap, w: nat)
    requires Shape(s)
    ensures Good(s, DeleteSlot(s, w))
  {
    if w < |s.entries| {
      DeleteGood(s, w, s.entries[w].addr);
    } else {
      KeepsGood(s, s);
    }
  }

  lemma SetEntryKeeps(s: Ap, w: nat, e: Entry)
    requires Shape(s) && w < MAX_LEN_OF_MAC_TABLE && SameId(s.entries[w], e)
    ensures Keeps(s, SetEntry(s, w, e)) && Good(s, SetEntry(s, w, e))
  {
    KeepsGood(s, SetEntry(s, w, e));
  }

  // Changing a station's authentication state does not concern its membership.
  lemma SetSstStations(s: Ap, w: nat, sst: Sst)
    requires Stations(s) && w < MAX_LEN_OF_MAC_TABLE
    ensures Stations(SetSst(s, w, sst))
  {
    var t := SetSst(s, w, sst);
    forall b | 0 <= b < |s.bss|
      ensures Members(t.entries, |t.entries|, b) == Members(s.entries, |s.entries|, b)
    {
      MembersSame(s.entries, t.entries, |s.entries|, b);
    }
    MembersSame(s.entries, t.entries, |s.entries|, 0);
    forall i | 0 <= i < MAX_LEN_OF_MAC_TABLE
      ensures Welcome(t, i)
    {
      assert Welcome(s, i);
    }
  }

  // What an insertion does to the table and the counters.
  lemma InsertCounters(s: Ap, addr: Mac, b: nat)
    requires Shape(s) && b < |s.bss|
    ensures var t := Insert(s, addr, b).0; var i := VacancyFrom(s.entries, 1);
            && |t.bss| == |s.bss| && (i == |s.entries| ==> t == s)
            && (i < |s.entries| ==>
                  && t.entries == s.entries[i := t.entries[i]] && s.entries[i].kind == EntryNone
                  && t.size - s.size == t.entryClientCount - s.entryClientCount == (if IsClient(t.entries[i]) then 1 else 0)
                  && (IsClient(t.entries[i]) ==> t.entries[i].apidx == b && !BssFull(s.bss[b]))
                  && forall c :: 0 <= c < |s.bss| ==>
                       && t.bss[c].maxStaNum == s.bss[c].maxStaNum
                       && t.bss[c].staCount == s.bss[c].staCount + if c == b && IsClient(t.entries[i]) then 1 else 0)
  {
  }

  lemma InsertCounted(s: Ap, addr: Mac, b: nat)
    requires Counted(s) && b < |s.bss|
    ensures Counted(Insert(s, addr, b).0)
  {
    hide Insert, VacancyFrom;
    var t := Insert(s, addr, b).0;
    var i := VacancyFrom(s.entries, 1);
    InsertCounters(s, addr, b);
    if i < |s.entries| {
      forall c | 0 <= c < |s.bss|
        ensures t.bss[c].staCount == Members(t.entries, |t.entries|, c)
      {
        MembersUpdate(s.entries, |s.entries|, i, t.entries[i], c);
      }
      MembersUpdate(s.entries, |s.entries|, i, t.entries[i], 0);
    }
  }

  lemma InsertFrame(s: Ap, addr: Mac, b: nat)
    requires Shape(s) && b < |s.bss|
    ensures var (t, v) := Insert(s, addr, b); var i := VacancyFrom(s.entries, 1);
            && |t.bss| == |s.bss|
            && (forall c :: 0 <= c < |s.bss| ==> SameConfig(s.bss[c], t.bss[c]))
            && (forall j :: 0 <= j < MAX_LEN_OF_MAC_TABLE && j != i ==> t.entries[j] == s.entries[j])
            && (i < MAX_LEN_OF_MAC_TABLE ==> t.entries[i] == NewEntry(s, addr, b) || !IsClient(t.entries[i]))
            && t.auxAddr == s.auxAddr && t.auxChallenge == s.auxChallenge
  {
  }

  lemma InsertWelcome(s: Ap, addr: Mac, b: nat, j: nat)
    requires Shape(s) && b < |s.bss| && j < MAX_LEN_OF_MAC_TABLE && Welcome(s, j)
    requires FindBss(s.bss, s.bss[b].bssid) == b && AclPasses(s.bss[b], addr)
    ensures Welcome(Insert(s, addr, b).0, j)
  {
    InsertFrame(s, addr, b);
    hide Insert;
    var t := Insert(s, addr, b).0;
    assert forall c :: 0 <= c < |s.bss| ==> SameConfig(s.bss[c], t.bss[c]);
    if j == VacancyFrom(s.entries, 1) {
      FindSame(s.bss, t.bss, s.bss[b].bssid, 0);
    } else {
      StillWelcome(s, t, j);
    }
  }

  lemma InsertUnique(s: Ap, addr: Mac, b: nat)
    requires Shape(s) && UniqueAddrs(s) && b < |s.bss| && Lookup(s, addr) == |s.entries|
    ensures UniqueAddrs(Insert(s, addr, b).0)
  {
  }

  lemma InsertStations(s: Ap, addr: Mac, b: nat)
    requires Stations(s) && b < |s.bss| && Lookup(s, addr) == |s.entries|
    requires FindBss(s.bss, s.bss[b].bssid) == b && AclPasses(s.bss[b], addr)
    ensures Stations(Insert(s, addr, b).0)
  {
    InsertCounted(s, addr, b);
    InsertUnique(s, addr, b);
    forall j | 0 <= j < MAX_LEN_OF_MAC_TABLE {
      InsertWelcome(s, addr, b, j);
    }
  }

  // ---------- the handlers that only remove stations, or none ----------

  lemma TimSetKeeps(s: Ap, b: nat, aid: nat)
    requires Shape(s) && b < |s.bss| && aid < MAX_LEN_OF_MAC_TABLE
    ensures Keeps(s, TimSet(s, b, aid))
  {
    hide TimBitSet;
  }

  lemma InsertPsKeeps(s: Ap, p: Packet, w: nat)
    requires Shape(s) && w < MAX_LEN_OF_MAC_TABLE
    ensures Keeps(s, InsertPsQueue(s, p, w))
  {
    hide TimBitSet, TimBit;
  }

  lemma SendKeeps(s: Ap, r: SendReq)
    requires Shape(s) && ReqOk(r)
    ensures Keeps(s, Send(s, r))
  {
    hide TimBitSet, TimBit, Refused, InsertPsQueue, TimSet;
    var s1 := Given(s, PacketOf(s, r));
    InsertPsKeeps(s1, PacketOf(s, r), r.wcid);
    TimSetKeeps(s1.(mcastPsQueue := [PacketOf(s, r)] + s1.mcastPsQueue), BssOf(s1, r), 0);
  }

  lemma HandlePsPollKeeps(s: Ap, addr: Mac, aid: nat, isActive: bool)
    requires Shape(s) && aid < MAX_LEN_OF_MAC_TABLE
    ensures Keeps(s, HandlePsPoll(s, addr, aid, isActive))
  {
    var e := s.entries[aid].(continueTxFailCnt := 0);
    var s1 := SetEntry(s, aid, e);
    SetEntryKeeps(s, aid, e);
    ReleaseKeeps(s1, aid);
    var s2 := if isActive then ReleaseAll(s1, aid) else ReleaseOne(s1, aid);
    hide Keeps, Good, ReleaseAll, ReleaseOne, ClearIfEmpty;
    ClearKeeps(s2, aid);
    KeepsTrans(s, s1, s2);
    KeepsTrans(s, s2, ClearIfEmpty(s2, aid));
    KeepsRefl(s);
  }

  lemma KeepsRefl(s: Ap)
    requires Shape(s)
    ensures Keeps(s, s)
  {
  }

  lemma ReleaseKeeps(s: Ap, w: nat)
    requires Shape(s) && w < MAX_LEN_OF_MAC_TABLE
    ensures Keeps(s, ReleaseOne(s, w)) && Keeps(s, ReleaseAll(s, w))
  {
  }

  lemma ClearKeeps(s: Ap, w: nat)
    requires Shape(s) && w < MAX_LEN_OF_MAC_TABLE
    ensures Keeps(s, ClearIfEmpty(s, w))
  {
  }

  lemma PsIndicateKeeps(s: Ap, addr: Mac, w: nat, psm: PsMode)
    requires Shape(s)
    ensures Keeps(s, PsIndicate(s, addr, w, psm))
  {
    if w < MAX_LEN_OF_MAC_TABLE {
      var e := s.entries[w].(noDataIdleCount := 0, psMode := psm);
      HandlePsPollKeeps(SetEntry(s, w, e), addr, w, true);
      hide HandlePsPoll;
    }
  }

  lemma KeepAliveKeeps(s: Ap, i: nat)
    requires Shape(s) && i < MAX_LEN_OF_MAC_TABLE
    ensures Keeps(s, KeepAlive(s, i))
  {
  }

  lemma TimClearKeeps(s: Ap, b: nat, i: nat)
    requires Shape(s) && b < |s.bss| && i < MAX_LEN_OF_MAC_TABLE
    ensures Keeps(s, TimClear(s, b, i))
  {
    hide TimBitClear, TimBit;
  }

  lemma CleanupKeeps(s: Ap, i: nat)
    requires Shape(s) && i < MAX_LEN_OF_MAC_TABLE
    ensures Keeps(s, CleanupPsQueue(s, i))
  {
  }

  lemma CollectKeeps(s: Ap, i: nat)
    requires Shape(s) && i < MAX_LEN_OF_MAC_TABLE
    ensures Keeps(s, CollectPsQueue(s, i))
  {
    hide Keeps, TimClear, CleanupPsQueue, SetEntry, Good;
    var e := s.entries[i];
    if e.psQueue != [] && e.psQIdleCount + 1 > 2 {
      var s1 := CleanupPsQueue(s, i);
      CleanupKeeps(s, i);
      SetEntryKeeps(s1, i, s1.entries[i].(psQIdleCount := 0));
      var s2 := SetEntry(s1, i, s1.entries[i].(psQIdleCount := 0));
      TimClearKeeps(s2, e.apidx, i);
      KeepsTrans(s, s1, s2);
      KeepsTrans(s, s2, TimClear(s2, e.apidx, i));
    } else {
      SetEntryKeeps(s, i, e.(psQIdleCount := 0));
      SetEntryKeeps(s, i, e.(psQIdleCount := e.psQIdleCount + 1));
    }
  }

  // Flags and queues outside the table do not matter.
  lemma FieldsKeep(s: Ap, t: Ap)
    requires Shape(s) && t.entries == s.entries && t.bss == s.bss && t.txSwQueue == s.txSwQueue && |t.hw| == |s.hw|
    requires t.size == s.size && t.entryClientCount == s.entryClientCount
    requires t.auxAddr == s.auxAddr && t.auxChallenge == s.auxChallenge
    ensures Keeps(s, t) && Good(s, t)
  {
    KeepsGood(s, t);
  }

  lemma SweepEntryGood(s: Ap, i: nat)
    requires Shape(s) && i < MAX_LEN_OF_MAC_TABLE
    ensures Good(s, SweepEntry(s, i))
  {
    hide Good, Keeps, DeleteSlot, KeepAlive, CollectPsQueue;
    var e := Tick(s.entries[i]);
    var s1 := SetEntry(s, i, e);
    SetEntryKeeps(s, i, e);
    DeleteSlotGood(s1, i);
    var s1' := if e.psMode == PwrSave then s1.(fAnyStationInPsm := true) else s1;
    FieldsKeep(s1, s1');
    var s2 := KeepAlive(s1', i);
    KeepAliveKeeps(s1', i);
    KeepsGood(s1', s2);
    DeleteSlotGood(s2, i);
    var s3 := CollectPsQueue(s2, i);
    CollectKeeps(s2, i);
    KeepsGood(s2, s3);
    var s3' := s3.(fAllStationAsRalink := false);
    FieldsKeep(s3, s3');
    KeepsRefl(s);
    KeepsGood(s, s);
    GoodTrans(s, s1, DeleteSlot(s1, i));
    GoodTrans(s, s1, s1');
    GoodTrans(s, s1', s2);
    GoodTrans(s, s2, DeleteSlot(s2, i));
    GoodTrans(s, s2, s3);
    GoodTrans(s, s3, s3');
  }

  lemma {:induction false} SweepFromGood(s: Ap, i: nat)
    requires Shape(s) && i <= MAX_LEN_OF_MAC_TABLE
    ensures Good(s, SweepFrom(s, i))
    decreases MAX_LEN_OF_MAC_TABLE - i
  {
    if i == MAX_LEN_OF_MAC_TABLE {
      KeepsGood(s, s);
    } else {
      hide SweepEntry, Good;
      SweepEntryGood(s, i);
      SweepFromGood(SweepEntry(s, i), i + 1);
      GoodTrans(s, SweepEntry(s, i), SweepFrom(s, i));
    }
  }

  lemma KeepsTrans(s: Ap, t: Ap, u: Ap)
    requires Keeps(s, t) && Keeps(t, u)
    ensures Keeps(s, u)
  {
    forall i | 0 <= i < MAX_LEN_OF_MAC_TABLE
      ensures SameId(s.entries[i], u.entries[i])
    {
      assert SameId(s.entries[i], t.entries[i]) && SameId(t.entries[i], u.entries[i]);
    }
    forall b | 0 <= b < |s.bss|
      ensures SameConfig(s.bss[b], u.bss[b]) && u.bss[b].staCount == s.bss[b].staCount
    {
      assert SameConfig(s.bss[b], t.bss[b]) && SameConfig(t.bss[b], u.bss[b]);
    }
  }

  lemma {:induction false} PortsKeeps(s: Ap, b: nat)
    requires Shape(s) && b <= |s.bss|
    ensures Keeps(s, PortsFrom(s, b))
    decreases |s.bss| - b
  {
    if b < |s.bss| {
      var t := SetBss(s, b, s.bss[b].(portSecured := AnyPortSecured(s, b)));
      assert Keeps(s, t);
      PortsKeeps(t, b + 1);
      hide Keeps;
      KeepsTrans(s, t, PortsFrom(t, b + 1));
    }
  }

  lemma {:induction false} BcmcKeeps(s: Ap, b: nat)
    requires Shape(s) && b <= |s.bss|
    ensures Keeps(s, BcmcClearFrom(s, b))
    decreases |s.bss| - b
  {
    if b < |s.bss| {
      var t := TimClear(s, b, 0);
      assert Keeps(s, t);
      BcmcKeeps(t, b + 1);
      hide Keeps;
      KeepsTrans(s, t, BcmcClearFrom(t, b + 1));
    }
  }

  lemma CollectMcastKeeps(s: Ap)
    requires Shape(s)
    ensures Keeps(s, CollectMcast(s))
  {
    var t := Release(s, s.mcastPsQueue).(mcastPsQueue := [], mcastPsQIdleCount := 0);
    FieldsKeep(s, t);
    FieldsKeep(s, s.(mcastPsQIdleCount := 0));
    FieldsKeep(s, s.(mcastPsQIdleCount := s.mcastPsQIdleCount + 1));
    BcmcKeeps(t, 0);
    hide Keeps;
    KeepsTrans(s, t, BcmcClearFrom(t, 0));
  }

  lemma SweepGood(s: Ap)
    requires Shape(s)
    ensures Good(s, Sweep(s))
  {
    var s0 := s.(fAnyStationInPsm := false, fAllStationAsRalink := true);
    FieldsKeep(s, s0);
    hide Good, Keeps, SweepFrom, PortsFrom, CollectMcast;
    SweepFromGood(s0, 1);
    var s1 := SweepFrom(s0, 1);
    PortsKeeps(s1, 0);
    var s2 := PortsFrom(s1, 0);
    KeepsGood(s1, s2);
    CollectMcastKeeps(s2);
    KeepsGood(s2, CollectMcast(s2));
    GoodTrans(s, s0, s1);
    GoodTrans(s, s1, s2);
    GoodTrans(s, s2, CollectMcast(s2));
  }

  lemma {:induction false} DtimLoopKeeps(s: Ap, count: nat)
    requires Shape(s)
    ensures Keeps(s, DtimLoop(s, count))
    decreases |s.mcastPsQueue|
  {
    if s.mcastPsQueue != [] {
      var p := s.mcastPsQueue[0];
      var t := s.(mcastPsQueue := s.mcastPsQueue[1..],
                  more := if count > 0 then s.more + {p} else s.more,
                  txSwQueue := s.txSwQueue[QID_AC_BE := [p] + s.txSwQueue[QID_AC_BE]]);
      assert Keeps(s, t);
      DtimLoopKeeps(t, count + 1);
      hide Keeps;
      KeepsTrans(s, t, DtimLoop(t, count + 1));
    }
  }

  lemma DtimKeeps(s: Ap)
    requires Shape(s)
    ensures Keeps(s, Dtim(s))
  {
    DtimLoopKeeps(s, 0);
    var t := DtimLoop(s, 0);
    BcmcKeeps(t, 0);
    var u := if t.mcastPsQueue == [] then BcmcClearFrom(t, 0) else t;
    FieldsKeep(t, t);
    FieldsKeep(u, u.(mcastPsQIdleCount := 0));
    hide Keeps;
    KeepsTrans(s, t, u);
    KeepsTrans(s, u, Dtim(s));
  }

  // The events that neither authenticate, associate nor edit an access control list.
  predicate Plain(e: Event) {
    !e.EvAuth? && !e.EvAssoc? && !e.EvPolicy? && !e.EvAclAdd? && !e.EvAclDel? && !e.EvAclClear?
  }

  lemma PlainGood(s: Ap, e: Event)
    requires Enabled(s, e) && Plain(e)
    ensures Good(s, Step(s, e))
  {
    KeepsGood(s, s);
    hide Good, Keeps;
    match e
    case EvSend(r) => SendKeeps(s, r); KeepsGood(s, Send(s, r));
    case EvPsPoll(aid, a) =>
      if aid < MAX_LEN_OF_MAC_TABLE {
        HandlePsPollKeeps(s, a, aid, false);
        KeepsGood(s, HandlePsPoll(s, a, aid, false));
      }
    case EvRxData(w, a, psm) =>
      PsIndicateKeeps(s, a, w, psm);
      KeepsGood(s, PsIndicate(s, a, w, psm));
      DeleteGood(s, w, a);
    case EvRxAction(w, a, psm) => PsIndicateKeeps(s, a, w, psm); KeepsGood(s, PsIndicate(s, a, w, psm));
    case EvDeauth(w, a) => DeleteGood(s, w, a);
    case EvDisassoc(w, a) => DeleteGood(s, w, a);
    case EvKickOut(a) => DeleteGood(s, Lookup(s, a), a);
    case EvSweep => SweepGood(s);
    case EvDtim => DtimKeeps(s); KeepsGood(s, Dtim(s));
    case EvDequeue(q, ok) => DequeueKeeps(s, q, ok); KeepsGood(s, Dequeue(s, q, ok));
    case EvTxStatus(w, ok) =>
      if w < MAX_LEN_OF_MAC_TABLE {
        SetEntryKeeps(s, w, TxStatus(s, w, ok).entries[w]);
      }
  }

  lemma DequeueKeeps(s: Ap, qid: nat, ok: bool)
    requires Shape(s) && qid < NUM_OF_TX_RING
    ensures Keeps(s, Dequeue(s, qid, ok))
  {
  }

  // ---------- authentication and association ----------

  lemma RehomeGood(s: Ap, w: nat, addr1: Mac)
    requires Shape(s) && w <= |s.entries|
    ensures Good(s, Rehome(s, w, addr1).0)
  {
    DeleteSlotGood(s, w);
    KeepsGood(s, s);
  }

  // After a station of another BSS has been sent away, the address is not in the table.
  lemma RehomeGone(s: Ap, addr: Mac, addr1: Mac)
    requires Stations(s)
    ensures var (t, w) := Rehome(s, Lookup(s, addr), addr1);
            && (w == |t.entries| ==> Lookup(t, addr) == |t.entries|)
            && (w < |t.entries| ==> t == s && IsClient(t.entries[w]) && t.entries[w].addr == addr
                                    && t.bss[t.entries[w].apidx].bssid == addr1)
  {
    assert Shape(s);
    hide Counted;
    var w0 := Lookup(s, addr);
    var (t, w) := Rehome(s, w0, addr1);
    if w == |t.entries| {
      forall j | 0 <= j < |t.entries|
        ensures t.entries[j].kind == EntryNone || t.entries[j].addr != addr
      {
        assert t.entries[j] == s.entries[j] || t.entries[j].kind == EntryNone;
      }
    }
  }

  lemma EnsureStations(s: Ap, w: nat, addr: Mac, b: nat)
    requires Stations(s) && w <= |s.entries| && b < |s.bss|
    requires w == |s.entries| ==> Lookup(s, addr) == |s.entries|
    requires FindBss(s.bss, s.bss[b].bssid) == b && AclPasses(s.bss[b], addr)
    ensures Stations(Ensure(s, w, addr, b).0)
  {
    if w == |s.entries| {
      InsertStations(s, addr, b);
    }
  }

  lemma AuthReqAtStations(s: Ap, w: nat, b: nat, f: AuthFrame, nonce: Challenge)
    requires Stations(s) && w <= |s.entries| && b < |s.bss| && FindBss(s.bss, s.bss[b].bssid) == b
    requires w == |s.entries| ==> Lookup(s, f.addr2) == |s.entries|
    ensures Stations(AuthReqAt(s, w, b, f, nonce))
  {
    DeleteSlotGood(s, w);
    if AclPasses(s.bss[b], f.addr2) {
      EnsureStations(s, w, f.addr2, b);
      var (t, v) := Ensure(s, w, f.addr2, b);
      if v < |t.entries| {
        SetSstStations(t, v, Auth);
        SetSstStations(t, v, NotAuth);
        var u := SetSst(t, v, NotAuth);
        AuxStations(u, f.addr2, nonce);
      }
    }
    hide Stations, DeleteSlot, Ensure, SetSst;
  }

  lemma AuxStations(s: Ap, addr: Mac, nonce: Challenge)
    requires Stations(s)
    ensures Stations(s.(auxAddr := addr, auxChallenge := nonce))
  {
    forall i | 0 <= i < MAX_LEN_OF_MAC_TABLE
      ensures Welcome(s.(auxAddr := addr, auxChallenge := nonce), i)
    {
      assert Welcome(s, i);
    }
  }

  lemma AuthReqStations(s: Ap, f: AuthFrame, nonce: Challenge)
    requires Stations(s)
    ensures Stations(AuthReq(s, f, nonce))
  {
    var b := FindBss(s.bss, f.addr1);
    if b < |s.bss| && f.devUp {
      RehomeGood(s, Lookup(s, f.addr2), f.addr1);
      RehomeGone(s, f.addr2, f.addr1);
      var (s1, w) := Rehome(s, Lookup(s, f.addr2), f.addr1);
      FindSame(s.bss, s1.bss, f.addr1, 0);
      hide Stations, AuthReqAt;
      AuthReqAtStations(s1, w, b, f, nonce);
    }
  }

  lemma AuthConfirmStations(s: Ap, f: AuthFrame)
    requires Stations(s)
    ensures Stations(AuthConfirm(s, f))
  {
    if f.wcid < MAX_LEN_OF_MAC_TABLE {
      RehomeGood(s, f.wcid, f.addr1);
      var (s1, w) := Rehome(s, f.wcid, f.addr1);
      DeleteSlotGood(s1, w);
      if w < |s1.entries| {
        SetSstStations(s1, w, Auth);
      }
    }
  }

  // Apart from the state of the sender's slot, an association request changes no membership.
  lemma AssocKeeps(s: Ap, f: AssocFrame)
    requires Shape(s) && Lookup(s, f.addr2) < MAX_LEN_OF_MAC_TABLE
    ensures var w := Lookup(s, f.addr2);
            Keeps(SetSst(s, w, AssocReq(s, f).entries[w].sst), AssocReq(s, f))
  {
    hide AclPasses, AssocSucceeds, Lookup, BuildAssociation, Keeps;
    var w := Lookup(s, f.addr2);
    BuildKeeps(s, w, f);
    KeepsRefl(s);
    SameSst(s, w);
    var s1 := BuildAssociation(s, w, f);
    SetEntryKeeps(s1, w, s1.entries[w].(psMode := PwrActive));
    KeepsTrans(SetSst(s, w, s1.entries[w].sst), s1, SetEntry(s1, w, s1.entries[w].(psMode := PwrActive)));
  }

  lemma SameSst(s: Ap, w: nat)
    requires Shape(s) && w < MAX_LEN_OF_MAC_TABLE
    ensures SetSst(s, w, s.entries[w].sst) == s
  {
    assert s.entries[w := s.entries[w]] == s.entries;
  }

  lemma BuildKeeps(s: Ap, w: nat, f: AssocFrame)
    requires Shape(s) && w < MAX_LEN_OF_MAC_TABLE
    ensures Keeps(SetSst(s, w, BuildAssociation(s, w, f).entries[w].sst), BuildAssociation(s, w, f))
  {
    hide AssocSucceeds;
  }

  lemma AssocStations(s: Ap, f: AssocFrame)
    requires Stations(s)
    ensures Stations(AssocReq(s, f))
  {
    var w := Lookup(s, f.addr2);
    if w < |s.entries| {
      var t := AssocReq(s, f);
      SetSstStations(s, w, t.entries[w].sst);
      var u := SetSst(s, w, t.entries[w].sst);
      AssocKeeps(s, f);
      hide Stations, Keeps, AssocReq;
      KeepsGood(u, t);
    }
  }

  // ---------- editing an access control list ----------

  // All is well except that slots from `i` on may hold stations that the list of BSS `b` now rejects.
  predicate Almost(s: Ap, b: nat, i: nat)
    requires Shape(s) && b < |s.bss|
  {
    && Counted(s) && UniqueAddrs(s)
    && (forall c :: 0 <= c < |s.bss| ==> s.bss[c].policy <= 2)
    && (forall j :: 0 <= j < MAX_LEN_OF_MAC_TABLE && !(j >= i && s.entries[j].apidx == b) ==> Welcome(s, j))
    && (forall j :: 0 <= j < MAX_LEN_OF_MAC_TABLE && IsClient(s.entries[j]) && s.entries[j].apidx == b ==>
          j >= 1 && FindBss(s.bss, s.bss[b].bssid) == b)
  }

  lemma DeleteWelcome(s: Ap, w: nat, j: nat)
    requires Shape(s) && w < MAX_LEN_OF_MAC_TABLE && j < MAX_LEN_OF_MAC_TABLE
    requires j == w || Welcome(s, j)
    ensures Welcome(Delete(s, w, s.entries[w].addr), j)
  {
    hide Delete;
    DeleteFrame(s, w);
    var t := Delete(s, w, s.entries[w].addr);
    assert forall c :: 0 <= c < |s.bss| ==> SameConfig(s.bss[c], t.bss[c]);
    if j != w {
      StillWelcome(s, t, j);
    }
  }

  lemma AlmostShrinks(s: Ap, w: nat, b: nat)
    requires Shape(s) && b < |s.bss| && w < MAX_LEN_OF_MAC_TABLE && Almost(s, b, w)
    ensures Almost(Delete(s, w, s.entries[w].addr), b, w + 1)
  {
    hide Counted, Delete, Welcome;
    var t := Delete(s, w, s.entries[w].addr);
    DeleteCounted(s, w, s.entries[w].addr);
    DeleteFrame(s, w);
    assert forall c :: 0 <= c < |s.bss| ==> SameConfig(s.bss[c], t.bss[c]);
    FindSame(s.bss, t.bss, s.bss[b].bssid, 0);
    forall j | 0 <= j < MAX_LEN_OF_MAC_TABLE && !(j >= w + 1 && t.entries[j].apidx == b) {
      DeleteWelcome(s, w, j);
    }
  }

  lemma {:induction false} UpdateAclStations(s: Ap, b: nat, i: nat)
    requires Shape(s) && b < |s.bss| && i <= MAX_LEN_OF_MAC_TABLE && Almost(s, b, i) && s.bss[b].policy != 0
    ensures Stations(UpdateAclFrom(s, b, i))
    decreases MAX_LEN_OF_MAC_TABLE - i
  {
    if i == MAX_LEN_OF_MAC_TABLE {
      AlmostDone(s, b);
    } else {
      var e := s.entries[i];
      if IsClient(e) && e.apidx == b && AclRejectsEntry(s.bss[b], e.addr) {
        hide Almost, Delete, AclRejectsEntry, Stations;
        AlmostShrinks(s, i, b);
        DeleteGood(s, i, e.addr);
        PolicyKept(s, Delete(s, i, e.addr), b);
        UpdateAclStations(Delete(s, i, e.addr), b, i + 1);
      } else {
        AlmostPasses(s, b, i);
        hide Almost, Delete, Stations;
        UpdateAclStations(s, b, i + 1);
      }
    }
  }

  lemma AlmostDone(s: Ap, b: nat)
    requires Shape(s) && b < |s.bss| && Almost(s, b, MAX_LEN_OF_MAC_TABLE)
    ensures Stations(s)
  {
  }

  lemma AlmostPasses(s: Ap, b: nat, i: nat)
    requires Shape(s) && b < |s.bss| && i < MAX_LEN_OF_MAC_TABLE && Almost(s, b, i) && s.bss[b].policy != 0
    requires var e := s.entries[i]; !(IsClient(e) && e.apidx == b && AclRejectsEntry(s.bss[b], e.addr))
    ensures Almost(s, b, i + 1)
  {
    assert Welcome(s, i);
  }

  lemma PolicyKept(s: Ap, t: Ap, b: nat)
    requires Good(s, t) && b < |s.bss|
    ensures Shape(t) && |t.bss| == |s.bss| && t.bss[b].policy == s.bss[b].policy
  {
    assert SameConfig(s.bss[b], t.bss[b]);
  }

  lemma AclEdited(s: Ap, b: nat, x: Bss)
    requires Stations(s) && b < |s.bss| && x.policy <= 2
    requires x == s.bss[b].(policy := x.policy, acl := x.acl)
    ensures Stations(UpdateAcl(SetBss(s, b, x), b))
  {
    var t := SetBss(s, b, x);
    assert Counted(t);
    forall c {:trigger s.bss[c]} | 0 <= c < |s.bss| {
      FindSame(s.bss, t.bss, s.bss[c].bssid, 0);
    }
    forall j | 0 <= j < MAX_LEN_OF_MAC_TABLE && IsClient(s.entries[j])
      ensures s.entries[j].apidx != b ==> Welcome(t, j)
      ensures s.entries[j].apidx == b ==> j >= 1 && FindBss(t.bss, t.bss[b].bssid) == b
    {
      assert Welcome(s, j);
    }
    if x.policy == 0 {
      forall j | 0 <= j < MAX_LEN_OF_MAC_TABLE
        ensures Welcome(t, j)
      {
      }
    } else {
      UpdateAclStations(t, b, 0);
    }
  }

  // ---------- runs ----------

  lemma StepStations(s: Ap, e: Event)
    requires Enabled(s, e) && Stations(s)
    ensures Stations(Step(s, e))
  {
    if Plain(e) {
      PlainGood(s, e);
    } else {
      hide Stations;
      match e
      case EvAuth(f, nonce) => AuthReqStations(s, f, nonce); AuthConfirmStations(s, f);
      case EvAssoc(f) => AssocStations(s, f);
      case EvPolicy(b, policy) => if policy <= 2 { AclEdited(s, b, s.bss[b].(policy := policy)); }
      case EvAclAdd(b, addrs) => AclListEdited(s, b, AclList.Add(s.bss[b].acl, addrs));
      case EvAclDel(b, addrs) => AclListEdited(s, b, AclList.Del(s.bss[b].acl, addrs));
      case EvAclClear(b) => AclListEdited(s, b, []);
    }
  }

  lemma AclListEdited(s: Ap, b: nat, acl: seq<Mac>)
    requires Stations(s) && b < |s.bss|
    ensures Stations(SetAcl(s, b, acl))
  {
    AclEdited(s, b, s.bss[b].(acl := acl));
  }

  lemma {:induction false} RunStations(s: Ap, es: seq<Event>)
    requires Run(s, es) && Stations(s)
    ensures Stations(Exec(s, es))
    decreases es
  {
    if es != [] {
      StepStations(s, es[0]);
      RunStations(Step(s, es[0]), es[1..]);
    }
  }

  lemma {:induction false} NoMembers(entries: seq<Entry>, n: nat, b: nat)
    requires n <= |entries| && forall i :: 0 <= i < |entries| ==> !IsClient(entries[i])
    ensures Members(entries, n, b) == 0 && Clients(entries, n) == 0
  {
    if n > 0 {
      NoMembers(entries, n - 1, b);
    }
  }

  lemma InitStations(s: Ap)
    requires Init(s)
    ensures Stations(s)
  {
    forall b | 0 <= b < |s.bss| {
      NoMembers(s.entries, |s.entries|, b);
    }
    NoMembers(s.entries, |s.entries|, 0);
  }

  /** ACL invariant: in every reachable state, after any handler and any edit of a list or policy, each station
      in the table passes the access control check of its own BSS, so the branch of the association
      handler that answers a rejected station is never taken. */
  lemma AclInvariant(s: Ap, es: seq<Event>, i: nat, f: AssocFrame)
    requires Init(s) && Run(s, es) && i < MAX_LEN_OF_MAC_TABLE
    ensures var t := Exec(s, es); var e := t.entries[i];
            IsClient(e) ==> AclPasses(t.bss[e.apidx], e.addr)
    ensures var t := Exec(s, es); var e := t.entries[i]; var b := t.bss[e.apidx];
            e.kind == EntryClient ==> b.policy == 0 || (b.policy == 1 && e.addr in b.acl) || (b.policy == 2 && e.addr !in b.acl)
    ensures !AclRejectBranch(Exec(s, es), f)
  {
    InitStations(s);
    RunStations(s, es);
    var t := Exec(s, es);
    assert Welcome(t, i);
    var w := Lookup(t, f.addr2);
    if w < MAX_LEN_OF_MAC_TABLE {
      assert Welcome(t, w);
    }
  }

  /** In every reachable state a station's address occurs once in the table, the station count of each BSS is
      the number of its stations, and no BSS has more stations than it may have. */
  lemma CountsExact(s: Ap, es: seq<Event>, b: nat)
    requires Init(s) && Run(s, es) && b < |Exec(s, es).bss|
    ensures UniqueAddrs(Exec(s, es))
    ensures var t := Exec(s, es);
            && t.bss[b].staCount == Members(t.entries, |t.entries|, b)
            && t.entryClientCount == Clients(t.entries, |t.entries|)
            && (t.bss[b].maxStaNum != 0 ==> Members(t.entries, |t.entries|, b) <= t.bss[b].maxStaNum)
  {
    InitStations(s);
    RunStations(s, es);
  }
}
