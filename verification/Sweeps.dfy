/** The sweep over time: what becomes of a station, of the packets buffered for it and of the multicast queue over any
    number of sweeps, and what it takes to stay in the table. */
module Sweeps {
  import opened Types
  import opened MacTable
  import opened Steps
  import opened Membership
  import opened PowerSave
  import opened DeliveryOrder
  import Ageing
  import DtimDelivery
  import opened TimConverse

  // ---------- the turn of one slot within a sweep ----------

  // The transmit queues, the hardware and the multicast queue are left alone.
  predicate TxKept(s: Ap, t: Ap) {
    && Shape(s) && Shape(t) && t.txSwQueue == s.txSwQueue && t.hw == s.hw && |t.bss| == |s.bss|
    && t.mcastPsQueue == s.mcastPsQueue && t.mcastPsQIdleCount == s.mcastPsQIdleCount
    && t.entryLifeCheck == s.entryLifeCheck && s.released <= t.released
  }

  lemma DeleteTx(s: Ap, i: nat)
    requires Shape(s)
    ensures TxKept(s, DeleteSlot(s, i))
  {
  }

  lemma KeepAliveTx(s: Ap, i: nat)
    requires Shape(s) && i < MAX_LEN_OF_MAC_TABLE
    ensures TxKept(s, KeepAlive(s, i))
  {
    hide TimBitSet, TimBit;
  }

  lemma CollectTx(s: Ap, i: nat)
    requires Shape(s) && i < MAX_LEN_OF_MAC_TABLE
    ensures TxKept(s, CollectPsQueue(s, i))
  {
    hide TimBitClear, TimBit;
  }

  lemma SweepEntryTx(s: Ap, i: nat)
    requires Shape(s) && i < MAX_LEN_OF_MAC_TABLE
    ensures TxKept(s, SweepEntry(s, i))
  {
    hide AgedOut, DeleteSlot, KeepAlive, CollectPsQueue;
    var e := Tick(s.entries[i]);
    var s1 := SetEntry(s, i, e);
    var s1' := if e.psMode == PwrSave then s1.(fAnyStationInPsm := true) else s1;
    var s2 := KeepAlive(s1', i);
    DeleteTx(s1, i);
    KeepAliveTx(s1', i);
    DeleteTx(s2, i);
    CollectTx(s2, i);
  }

  lemma {:induction false} SweepFromTx(s: Ap, i: nat)
    requires Shape(s) && i <= MAX_LEN_OF_MAC_TABLE
    ensures TxKept(s, SweepFrom(s, i))
    decreases MAX_LEN_OF_MAC_TABLE - i
  {
    hide SweepEntry;
    if i < MAX_LEN_OF_MAC_TABLE {
      SweepEntryTx(s, i);
      SweepFromTx(SweepEntry(s, i), i + 1);
    }
  }

  lemma {:induction false} PortsTx(s: Ap, b: nat)
    requires Shape(s) && b <= |s.bss|
    ensures TxKept(s, PortsFrom(s, b)) && PortsFrom(s, b).released == s.released
    decreases |s.bss| - b
  {
    if b < |s.bss| {
      PortsTx(SetBss(s, b, s.bss[b].(portSecured := AnyPortSecured(s, b))), b + 1);
    }
  }

  // The state in which slot `w` has its turn.
  lemma {:induction false} TurnFrom(s: Ap, i: nat, w: nat, b: nat) returns (u: Ap)
    requires Shape(s) && i <= w < MAX_LEN_OF_MAC_TABLE && b < |s.bss|
    ensures Untouched(s, u, b, w) && Untouched(SweepEntry(u, w), SweepFrom(s, i), b, w)
    decreases MAX_LEN_OF_MAC_TABLE - i
  {
    hide SweepEntry, TimMarked;
    if i == w {
      u := s;
      SweepEntryTx(s, w);
      SweepFromElsewhere(SweepEntry(s, w), w + 1, b, w);
    } else {
      SweepElsewhere(s, i, b, w);
      UntouchedBss(s, SweepEntry(s, i), b, w);
      u := TurnFrom(SweepEntry(s, i), i + 1, w, b);
      UntouchedTrans(s, SweepEntry(s, i), u, b, w);
    }
  }

  lemma Turn(s: Ap, w: nat, b: nat) returns (u: Ap)
    requires Shape(s) && 1 <= w < MAX_LEN_OF_MAC_TABLE && b < |s.bss|
    ensures Untouched(s, u, b, w) && Untouched(SweepEntry(u, w), Sweep(s), b, w)
  {
    hide SweepFrom, PortsFrom, CollectMcast, Untouched, SweepEntry;
    var s0 := s.(fAnyStationInPsm := false, fAllStationAsRalink := true);
    FieldsElsewhere(s, s0, w, s.entries[w], b, w);
    u := TurnFrom(s0, 1, w, b);
    UntouchedTrans(s, s0, u, b, w);
    var s1 := SweepFrom(s0, 1);
    UntouchedBss(SweepEntry(u, w), s1, b, w);
    SweepFromTx(s0, 1);
    PortsElsewhere(s1, 0, b, w);
    var s2 := PortsFrom(s1, 0);
    UntouchedBss(s1, s2, b, w);
    CollectMcastElsewhere(s2, b, w);
    UntouchedTrans(SweepEntry(u, w), s1, s2, b, w);
    UntouchedTrans(SweepEntry(u, w), s2, CollectMcast(s2), b, w);
  }

  // ---------- what a sweep leaves of a survivor ----------

  // The number of sweeps that a queue survives once it is not empty.
  const PS_QUEUE_SWEEPS := 2

  // What becomes of the packets buffered for a survivor: they stay for two sweeps and are gone with the third.
  predicate QueueAged(e: Entry, g: Entry) {
    if e.psQueue == [] || e.psQIdleCount >= PS_QUEUE_SWEEPS then g.psQueue == [] && g.psQIdleCount == 0
    else g.psQueue == e.psQueue && g.psQIdleCount == e.psQIdleCount + 1
  }

  // The sweep probes a station at its first silent second past the limit and then once in as many seconds as the limit says:
  // the counter counts the sweeps since the last probe.
  predicate ProbeAged(e: Entry, g: Entry, limit: nat) {
    var since := if e.noDataIdleCount == 0 then 0 else e.stationKeepAliveCount;
    g.stationKeepAliveCount ==
      if limit == 0 || e.noDataIdleCount + 1 < limit then since else if since > 0 && since + 1 >= limit then 0 else since + 1
  }

  lemma KeepAliveCounts(s: Ap, w: nat)
    requires Shape(s) && w < MAX_LEN_OF_MAC_TABLE
    ensures var e, t := s.entries[w], KeepAlive(s, w); var limit := s.bss[e.apidx].stationKeepAliveTime; var n := e.stationKeepAliveCount;
            && |t.bss| == |s.bss| && t.released == s.released
            && t.entries[w] == e.(stationKeepAliveCount :=
                                    if limit == 0 || e.noDataIdleCount < limit then n else if n > 0 && n + 1 >= limit then 0 else n + 1)
  {
    hide TimBitSet, TimBit;
  }

  lemma CollectAges(s: Ap, w: nat)
    requires Shape(s) && w < MAX_LEN_OF_MAC_TABLE
    ensures var e, t := s.entries[w], CollectPsQueue(s, w);
            && |t.bss| == |s.bss| && QueueAged(e, t.entries[w]) && t.entries[w].stationKeepAliveCount == e.stationKeepAliveCount
            && (e.psQueue != [] && t.entries[w].psQueue == [] ==>
                  !TimMarked(t, e.apidx, w) && t.released == s.released + e.psQueue)
  {
    hide TimBit;
  }

  lemma DeleteFrees(s: Ap, w: nat)
    requires Shape(s) && w < MAX_LEN_OF_MAC_TABLE
    ensures !IsClient(DeleteSlot(s, w).entries[w])
  {
  }

  // Slot `w` has its turn.
  lemma OwnTurn(u: Ap, w: nat)
    requires Shape(u) && 1 <= w < MAX_LEN_OF_MAC_TABLE && IsClient(SweepEntry(u, w).entries[w])
    ensures var e, v := u.entries[w], SweepEntry(u, w); var b := e.apidx;
            && |v.bss| == |u.bss| && QueueAged(e, v.entries[w]) && ProbeAged(e, v.entries[w], u.bss[b].stationKeepAliveTime)
            && (e.psQueue != [] && v.entries[w].psQueue == [] ==>
                  !TimMarked(v, b, w) && v.released == u.released + e.psQueue)
  {
    hide AgedOut, TimMarked, KeepAlive, CollectPsQueue, DeleteSlot;
    var e := Tick(u.entries[w]);
    var s1 := SetEntry(u, w, e);
    var s1' := if e.psMode == PwrSave then s1.(fAnyStationInPsm := true) else s1;
    var s2 := KeepAlive(s1', w);
    DeleteFrees(s1, w);
    DeleteFrees(s2, w);
    KeepAliveCounts(s1', w);
    CollectAges(s2, w);
    var s3 := CollectPsQueue(s2, w);
    assert TimMarked(s3.(fAllStationAsRalink := false), e.apidx, w) == TimMarked(s3, e.apidx, w) by {
      FlagMarks(s3, e.apidx, w);
    }
  }

  lemma FlagMarks(s: Ap, b: nat, w: nat)
    requires Shape(s) && b < |s.bss| && w < MAX_LEN_OF_MAC_TABLE
    ensures TimMarked(s.(fAllStationAsRalink := false), b, w) == TimMarked(s, b, w)
  {
  }

  /** What a sweep does for a survivor, whatever else it does: packets that have waited for two sweeps are released and not announced
      any more, fresher ones stay, and the counter of the probes advances. */
  lemma SurvivorAges(s: Ap, w: nat)
    requires Shape(s) && 1 <= w < MAX_LEN_OF_MAC_TABLE && Ageing.Survives(s, w)
    ensures var e, t := s.entries[w], Sweep(s);
            && Ageing.Older(e, t.entries[w]) && IsClient(t.entries[w])
            && QueueAged(e, t.entries[w]) && ProbeAged(e, t.entries[w], s.bss[e.apidx].stationKeepAliveTime)
            && |t.bss| == |s.bss|
            && (e.psQueue != [] && t.entries[w].psQueue == [] ==>
                  !TimMarked(t, e.apidx, w) && forall p :: p in e.psQueue ==> p in t.released)
  {
    hide Sweep, SweepEntry, TimMarked, QueueAged, ProbeAged, Ageing.Survives, Ageing.Older;
    var b := s.entries[w].apidx;
    Ageing.SweepSurvivors(s, w);
    var u := Turn(s, w, b);
    OwnTurn(u, w);
    var v := SweepEntry(u, w);
    if s.entries[w].psQueue != [] && v.entries[w].psQueue == [] {
      forall p | p in s.entries[w].psQueue
        ensures p in Sweep(s).released
      {
        assert p in v.released;
      }
    }
  }

  /** A sweep moves nothing to the transmit queues or the hardware.  Multicast packets that have waited for a sweep are released
      and no BSS announces them any more; fresher ones stay. */
  lemma McastAges(s: Ap)
    requires Shape(s)
    ensures var t := Sweep(s);
            t.txSwQueue == s.txSwQueue && t.hw == s.hw && t.entryLifeCheck == s.entryLifeCheck && |t.bss| == |s.bss|
    ensures var t := Sweep(s);
            && (s.mcastPsQueue == [] || s.mcastPsQIdleCount >= 1 ==> t.mcastPsQueue == [] && t.mcastPsQIdleCount == 0)
            && (s.mcastPsQueue != [] && s.mcastPsQIdleCount == 0 ==> t.mcastPsQueue == s.mcastPsQueue && t.mcastPsQIdleCount == 1)
            && (s.mcastPsQueue != [] && s.mcastPsQIdleCount >= 1 ==>
                  (forall p :: p in s.mcastPsQueue ==> p in t.released) && forall b :: 0 <= b < |t.bss| ==> !TimMarked(t, b, 0))
  {
    hide SweepFrom, PortsFrom, CollectMcast, TimMarked;
    var s0 := s.(fAnyStationInPsm := false, fAllStationAsRalink := true);
    SweepFromTx(s0, 1);
    var s1 := SweepFrom(s0, 1);
    PortsTx(s1, 0);
    McastCollected(PortsFrom(s1, 0));
  }

  lemma McastCollected(s: Ap)
    requires Shape(s)
    ensures var t := CollectMcast(s);
            && t.txSwQueue == s.txSwQueue && t.hw == s.hw && t.entryLifeCheck == s.entryLifeCheck && |t.bss| == |s.bss|
            && (s.mcastPsQueue == [] || s.mcastPsQIdleCount >= 1 ==> t.mcastPsQueue == [] && t.mcastPsQIdleCount == 0)
            && (s.mcastPsQueue != [] && s.mcastPsQIdleCount == 0 ==> t.mcastPsQueue == s.mcastPsQueue && t.mcastPsQIdleCount == 1)
            && (s.mcastPsQueue != [] && s.mcastPsQIdleCount >= 1 ==>
                  (forall p :: p in s.mcastPsQueue ==> p in t.released) && forall b :: 0 <= b < |t.bss| ==> !TimMarked(t, b, 0))
  {
    hide BcmcClearFrom, TimMarked;
    var s1 := Release(s, s.mcastPsQueue).(mcastPsQueue := [], mcastPsQIdleCount := 0);
    BcmcFields(s1, 0);
    if s.mcastPsQueue != [] && s.mcastPsQIdleCount >= 1 {
      forall b | 0 <= b < |s.bss|
        ensures !TimMarked(CollectMcast(s), b, 0)
      {
        DtimDelivery.BcmcCleared(s1, 0, b);
      }
    }
  }

  /** Multicast packets that had to stay behind at a DTIM survive the next sweep. */
  lemma DtimRefreshesMcast(s: Ap)
    requires Shape(s)
    ensures Sweep(Dtim(s)).mcastPsQueue == Dtim(s).mcastPsQueue
  {
    hide Sweep, DtimLoop, BcmcClearFrom;
    McastAges(Dtim(s));
  }

  lemma {:induction false} BcmcFields(s: Ap, b: nat)
    requires Shape(s) && b <= |s.bss|
    ensures var t := BcmcClearFrom(s, b);
            && t.txSwQueue == s.txSwQueue && t.hw == s.hw && t.entryLifeCheck == s.entryLifeCheck && |t.bss| == |s.bss|
            && t.mcastPsQueue == s.mcastPsQueue && t.mcastPsQIdleCount == s.mcastPsQIdleCount && t.released == s.released
    decreases |s.bss| - b
  {
    if b < |s.bss| {
      BcmcFields(TimClear(s, b, 0), b + 1);
    }
  }

  // ---------- any number of sweeps ----------

  function Repeat(e: Event, n: nat): seq<Event> {
    if n == 0 then [] else [e] + Repeat(e, n - 1)
  }

  // The station in slot `w` outlasts `n` sweeps in which nothing is heard from it.
  predicate Outlasts(s: Ap, w: nat, n: nat)
    requires Shape(s) && w < MAX_LEN_OF_MAC_TABLE
  {
    var e := s.entries[w];
    && e.kind == EntryClient
    && (n == 0
        || ((e.sst == Assoc || e.noDataIdleCount + n < e.assocDeadLine)
            && e.noDataIdleCount + n < e.staIdleTimeout
            && (e.psMode == PwrSave || e.continueTxFailCnt < s.entryLifeCheck)))
  }

  lemma OutlastsOne(s: Ap, w: nat, n: nat)
    requires Shape(s) && 1 <= w < MAX_LEN_OF_MAC_TABLE && n >= 1
    ensures Outlasts(s, w, n) <==> Ageing.Survives(s, w) && Outlasts(Sweep(s), w, n - 1)
  {
    hide Sweep;
    McastAges(s);
    Ageing.SweepSurvivors(s, w);
  }

  lemma GoneStaysGone(s: Ap, w: nat, n: nat)
    requires Shape(s) && 1 <= w < MAX_LEN_OF_MAC_TABLE && n >= 1 && !Ageing.Survives(s, w)
    ensures !Outlasts(Sweep(s), w, n - 1)
  {
    hide Sweep;
    Ageing.SweepSurvivors(s, w);
  }

  /** A station of which nothing is heard is in the table after `n` sweeps if and only if the sum of its silence and `n` is below its
      silence limit, and below the association deadline if it is not associated, and it sleeps or has not failed to
      acknowledge too often.  The packets buffered for it are those from before as long as they have waited for at
      most two sweeps, and none later. */
  lemma {:induction false} SweepsOutcome(s: Ap, w: nat, n: nat)
    requires Shape(s) && 1 <= w < MAX_LEN_OF_MAC_TABLE
    ensures Run(s, Repeat(EvSweep, n))
    ensures var e, g := s.entries[w], Exec(s, Repeat(EvSweep, n)).entries[w];
            && (g.kind == EntryClient <==> Outlasts(s, w, n))
            && (Outlasts(s, w, n) ==>
                  && SameId(e, g) && g.psMode == e.psMode && g.noDataIdleCount == e.noDataIdleCount + n
                  && g.continueTxFailCnt == e.continueTxFailCnt
                  && (n == 0 || e.psQIdleCount + n <= PS_QUEUE_SWEEPS ==> g.psQueue == e.psQueue)
                  && (n > 0 && e.psQIdleCount + n > PS_QUEUE_SWEEPS ==> g.psQueue == []))
    decreases n
  {
    hide Sweep, Ageing.Survives;
    if n > 0 {
      var t := Sweep(s);
      OutlastsOne(s, w, n);
      SweepsOutcome(t, w, n - 1);
      RunCons(s, EvSweep, Repeat(EvSweep, n - 1));
      if Ageing.Survives(s, w) {
        SurvivorAges(s, w);
      } else {
        GoneStaysGone(s, w, n);
      }
    }
  }

  // ---------- staying in the table ----------

  // The event shows that the associated station in slot `w` is there: a frame of it with the given power management, or an
  // acknowledgement.
  predicate Shows(s: Ap, e: Event, w: nat, psm: PsMode)
    requires Shape(s) && w < MAX_LEN_OF_MAC_TABLE
  {
    var x := s.entries[w];
    && x.kind == EntryClient && x.sst == Assoc
    && (e == EvRxData(w, x.addr, psm) || e == EvRxAction(w, x.addr, psm) || (e == EvTxStatus(w, true) && psm == x.psMode))
  }

  // How many failures are counted after such an event: an acknowledgement forgets them, and so does waking up.
  function FailuresAfter(x: Entry, e: Event, psm: PsMode): nat {
    if e.EvTxStatus? || (x.psMode == PwrSave && psm == PwrActive) then 0 else x.continueTxFailCnt
  }

  lemma IndicatedIsFresh(s: Ap, w: nat, psm: PsMode)
    requires Shape(s) && 1 <= w < MAX_LEN_OF_MAC_TABLE
    ensures var x, t := s.entries[w], PsIndicate(s, s.entries[w].addr, w, psm); var g := t.entries[w];
            && SameId(x, g) && g.noDataIdleCount == 0 && g.psMode == psm && g.staIdleTimeout == x.staIdleTimeout
            && g.continueTxFailCnt == (if x.psMode == PwrSave && psm == PwrActive then 0 else x.continueTxFailCnt)
            && t.entryLifeCheck == s.entryLifeCheck
  {
    hide TimBitClear, TimBit, ReleaseOne;
  }

  lemma ShownIsFresh(s: Ap, e: Event, w: nat, psm: PsMode)
    requires Shape(s) && 1 <= w < MAX_LEN_OF_MAC_TABLE && Shows(s, e, w, psm)
    ensures Enabled(s, e)
    ensures var x, g := s.entries[w], Step(s, e).entries[w];
            && SameId(x, g) && g.noDataIdleCount == 0 && g.psMode == psm && g.continueTxFailCnt == FailuresAfter(x, e, psm)
            && g.staIdleTimeout == x.staIdleTimeout && Step(s, e).entryLifeCheck == s.entryLifeCheck
  {
    hide PsIndicate;
    IndicatedIsFresh(s, w, psm);
  }

  /** A station that is heard stays for less than its silence limit from then on, if it sleeps or has not failed to acknowledge
      too often; with exactly as many sweeps it is gone. */
  lemma HeardStationStays(s: Ap, e: Event, w: nat, psm: PsMode, n: nat)
    requires Shape(s) && 1 <= w < MAX_LEN_OF_MAC_TABLE && Shows(s, e, w, psm)
    ensures Run(s, [e] + Repeat(EvSweep, n))
    ensures Exec(s, [e] + Repeat(EvSweep, n)).entries[w].kind == EntryClient
            <==> n == 0 || (n < s.entries[w].staIdleTimeout
                            && (psm == PwrSave || FailuresAfter(s.entries[w], e, psm) < s.entryLifeCheck))
  {
    hide Step, Enabled, Exec, Run, Shows, FailuresAfter;
    assert s.entries[w].kind == EntryClient && s.entries[w].sst == Assoc by {
      ShowsWhom(s, e, w, psm);
    }
    ShownIsFresh(s, e, w, psm);
    SweepsOutcome(Step(s, e), w, n);
    RunCons(s, e, Repeat(EvSweep, n));
  }

  lemma ShowsWhom(s: Ap, e: Event, w: nat, psm: PsMode)
    requires Shape(s) && w < MAX_LEN_OF_MAC_TABLE && Shows(s, e, w, psm)
    ensures s.entries[w].kind == EntryClient && s.entries[w].sst == Assoc
  {
  }

  lemma {:induction false} FailuresCount(s: Ap, w: nat, k: nat)
    requires Shape(s) && w < MAX_LEN_OF_MAC_TABLE
    ensures Run(s, Repeat(EvTxStatus(w, false), k))
    ensures var e := s.entries[w];
            Exec(s, Repeat(EvTxStatus(w, false), k)) == s.(entries := s.entries[w := e.(continueTxFailCnt := e.continueTxFailCnt + k)])
    decreases k
  {
    if k == 0 {
      assert s.entries[w := s.entries[w]] == s.entries;
    } else {
      hide Run, Exec;
      var x := EvTxStatus(w, false);
      var t := Step(s, x);
      FailuresCount(t, w, k - 1);
      RunCons(s, x, Repeat(x, k - 1));
    }
  }

  /** An associated station that is awake and does not acknowledge `k` frames is removed by the next sweep if and only if its
      failures have reached the limit, or its silence has; a sleeping one only for its silence. */
  lemma FailingStationGone(s: Ap, w: nat, k: nat)
    requires Shape(s) && 1 <= w < MAX_LEN_OF_MAC_TABLE && s.entries[w].kind == EntryClient && s.entries[w].sst == Assoc
    ensures var es := Repeat(EvTxStatus(w, false), k);
            && Run(s, es) && Enabled(Exec(s, es), EvSweep)
            && (Step(Exec(s, es), EvSweep).entries[w].kind == EntryNone
                <==> s.entries[w].noDataIdleCount + 1 >= s.entries[w].staIdleTimeout
                     || (s.entries[w].psMode == PwrActive && s.entries[w].continueTxFailCnt + k >= s.entryLifeCheck))
  {
    hide Sweep, Exec, Run, Step, Enabled;
    FailuresCount(s, w, k);
    var t := Exec(s, Repeat(EvTxStatus(w, false), k));
    SweepStep(t);
    Ageing.SweepSurvivors(t, w);
  }

  lemma SweepStep(s: Ap)
    requires Shape(s)
    ensures Enabled(s, EvSweep) && Step(s, EvSweep) == Sweep(s)
  {
  }
}
