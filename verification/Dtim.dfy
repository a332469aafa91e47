/** Multicast delivery at a DTIM (os/linux/rt_profile.c): McastPsQueue is filled at its head and emptied at
    its head into the head of TxSwQueue[QID_AC_BE], so that two reversals restore the order of arrival. */
module DtimDelivery {
  import opened Types
  import opened MacTable
  import opened Steps
  import opened PowerSave
  import opened DeliveryOrder
  import opened Conservation

  function Reverse(q: seq<Packet>): (r: seq<Packet>)
    ensures |r| == |q|
    ensures forall i :: 0 <= i < |q| ==> r[i] == q[|q| - 1 - i]
  {
    if q == [] then [] else Reverse(q[1..]) + [q[0]]
  }

  // The newest packet comes first.
  predicate NewestFirst(q: seq<Packet>) {
    forall i, j :: 0 <= i < j < |q| ==> q[i].no > q[j].no
  }

  predicate McastSorted(s: Ap) {
    NewestFirst(s.mcastPsQueue) && AllBelow(s.mcastPsQueue, |s.given|)
  }

  // How many multicast packets the loop moves before TxSwQueue[QID_AC_BE] exceeds its limit.
  function Movable(s: Ap): (k: nat)
    requires Shape(s)
    ensures k <= |s.mcastPsQueue|
  {
    var room := s.txSwQMaxLen + MAX_PACKETS_IN_MCAST_PS_QUEUE + 1 - |s.txSwQueue[QID_AC_BE]|;
    if room < 0 then 0 else if room < |s.mcastPsQueue| then room else |s.mcastPsQueue|
  }

  // What the loop leaves behind: the first `k` packets of the multicast queue stand before the best-effort
  // packets in reverse order, marked MoreData except for the very first one the loop took.
  predicate Moved(s: Ap, t: Ap, k: nat, count: nat)
    requires Shape(s) && Shape(t) && k <= |s.mcastPsQueue|
  {
    && t.mcastPsQueue == s.mcastPsQueue[k..]
    && t.txSwQueue == s.txSwQueue[QID_AC_BE := Reverse(s.mcastPsQueue[..k]) + s.txSwQueue[QID_AC_BE]]
    && t.more == s.more + (set i | (if count > 0 then 0 else 1) <= i < k :: s.mcastPsQueue[i])
    && t.bss == s.bss && t.entries == s.entries && t.given == s.given
  }

  lemma {:induction false} DtimLoopMoves(s: Ap, count: nat)
    requires Shape(s)
    ensures Moved(s, DtimLoop(s, count), Movable(s), count)
    decreases |s.mcastPsQueue|
  {
    var k := Movable(s);
    var m := s.mcastPsQueue;
    var be := s.txSwQueue[QID_AC_BE];
    if k == 0 {
      assert m[..0] == [] && m[0..] == m;
      assert Reverse(m[..0]) + be == be;
      assert s.txSwQueue[QID_AC_BE := be] == s.txSwQueue;
    } else {
      var p := m[0];
      var s1 := s.(mcastPsQueue := m[1..],
                   more := if count > 0 then s.more + {p} else s.more,
                   txSwQueue := s.txSwQueue[QID_AC_BE := [p] + be]);
      DtimLoopMoves(s1, count + 1);
      assert Movable(s1) == k - 1;
      assert m[1..][..k - 1] == m[..k][1..];
      assert Reverse(m[..k]) == Reverse(m[..k][1..]) + [p];
      assert Reverse(m[..k]) + be == Reverse(m[1..][..k - 1]) + ([p] + be);
      assert m[1..][k - 1..] == m[k..];
      MarkShift(m, k, count);
    }
  }

  // The marks of the rest of the loop, counted from the second packet.
  lemma MarkShift(m: seq<Packet>, k: nat, count: nat)
    requires 1 <= k <= |m|
    ensures (set i | (if count > 0 then 0 else 1) <= i < k :: m[i])
         == (if count > 0 then {m[0]} else {}) + (set i | 0 <= i < k - 1 :: m[1..][i])
  {
    var lhs := set i | (if count > 0 then 0 else 1) <= i < k :: m[i];
    var rest := set i | 0 <= i < k - 1 :: m[1..][i];
    forall p | p in rest
      ensures p in lhs
    {
      var i :| 0 <= i < k - 1 && m[1..][i] == p;
      assert p == m[i + 1];
    }
    forall p | p in lhs
      ensures p in (if count > 0 then {m[0]} else {}) + rest
    {
      var i :| (if count > 0 then 0 else 1) <= i < k && m[i] == p;
      if i > 0 {
        assert p == m[1..][i - 1];
      }
    }
  }

  lemma {:induction false} BcmcCleared(s: Ap, b: nat, c: nat)
    requires Shape(s) && b <= |s.bss| && c < |s.bss|
    ensures |BcmcClearFrom(s, b).bss| == |s.bss|
    ensures TimMarked(BcmcClearFrom(s, b), c, 0) <==> TimMarked(s, c, 0) && c < b
    ensures BcmcClearFrom(s, b).mcastPsQueue == s.mcastPsQueue
    decreases |s.bss| - b
  {
    if b < |s.bss| {
      BcmcCleared(TimClear(s, b, 0), b + 1, c);
    }
  }

  // ---------- the queue over whole runs ----------

  lemma DtimSorted(s: Ap)
    requires Shape(s) && McastSorted(s)
    ensures McastSorted(Dtim(s))
  {
    DtimLoopMoves(s, 0);
    var t := DtimLoop(s, 0);
    BcmcKept(t, 0);
    BcmcCleared(t, 0, 0);
  }

  // Only sending, the DTIM and garbage collection touch the multicast queue.
  lemma StepSorted(s: Ap, e: Event)
    requires Enabled(s, e) && Buffered(s) && McastSorted(s)
    ensures McastSorted(Step(s, e))
  {
    McastUntouched(s, e);
    StepTotal(s, e, Packet(0, 0));
    if e.EvDtim? {
      DtimSorted(s);
    }
  }

  lemma McastUntouched(s: Ap, e: Event)
    requires Enabled(s, e)
    ensures var m, n := s.mcastPsQueue, Step(s, e).mcastPsQueue;
            e.EvDtim? || n == m || n == [] || (e.EvSend? && n == [PacketOf(s, e.req)] + m)
  {
    hide AuthReq, AuthConfirm, AssocReq, UpdateAcl, PsIndicate, HandlePsPoll, ClassError, SweepFrom, PortsFrom, BcmcClearFrom;
  }

  lemma {:induction false} RunSorted(s: Ap, es: seq<Event>)
    requires Run(s, es) && Buffered(s) && McastSorted(s)
    ensures McastSorted(Exec(s, es))
    decreases es
  {
    if es != [] {
      StepBuffered(s, es[0]);
      StepSorted(s, es[0]);
      RunSorted(Step(s, es[0]), es[1..]);
    }
  }

  lemma DtimOrdered(s: Ap)
    requires Shape(s) && McastSorted(s)
    ensures var t := Dtim(s); var k := Movable(s);
            var batch := Reverse(s.mcastPsQueue[..k]);
            && t.txSwQueue[QID_AC_BE] == batch + s.txSwQueue[QID_AC_BE]
            && InSendOrder(batch)
            && t.mcastPsQueue == s.mcastPsQueue[k..]
            && (forall p, q :: p in t.mcastPsQueue && q in batch ==> p.no < q.no)
            && (t.mcastPsQueue == [] <==> k == |s.mcastPsQueue|)
            && |t.bss| == |s.bss|
            && (t.mcastPsQueue == [] ==> forall b :: 0 <= b < |s.bss| ==> !TimMarked(t, b, 0))
  {
    hide DtimLoop, BcmcClearFrom, Movable, TimBit;
    DtimLoopMoves(s, 0);
    var t := DtimLoop(s, 0);
    BcmcKept(t, 0);
    BcmcCleared(t, 0, 0);
    forall b | 0 <= b < |t.bss| && t.mcastPsQueue == []
      ensures !TimMarked(Dtim(s), b, 0)
    {
      BcmcCleared(t, 0, b);
    }
  }

  /** In every reachable state a DTIM puts the newest `k` multicast packets before the best-effort packets in
      the order in which they were sent, where `k` is what the queue limit admits.  No older packet is left
      behind, and all BSSs stop announcing multicast, if and only if all of them fit. */
  lemma DtimInOrder(s0: Ap, es: seq<Event>)
    requires Init(s0) && Run(s0, es)
    ensures var s := Exec(s0, es); var t := Dtim(s); var k := Movable(s);
            var batch := Reverse(s.mcastPsQueue[..k]);
            && t.txSwQueue[QID_AC_BE] == batch + s.txSwQueue[QID_AC_BE]
            && InSendOrder(batch)
            && t.mcastPsQueue == s.mcastPsQueue[k..]
            && (forall p, q :: p in t.mcastPsQueue && q in batch ==> p.no < q.no)
            && (t.mcastPsQueue == [] <==> k == |s.mcastPsQueue|)
            && |t.bss| == |s.bss|
            && (t.mcastPsQueue == [] ==> forall b :: 0 <= b < |s.bss| ==> !TimMarked(t, b, 0))
  {
    hide Dtim, Exec, Run, McastSorted, InSendOrder, TimMarked, Movable;
    FirstSorted(s0);
    RunSorted(s0, es);
    DtimOrdered(Exec(s0, es));
  }

  lemma FirstSorted(s: Ap)
    requires Init(s)
    ensures Buffered(s) && McastSorted(s)
  {
  }

  lemma Unmarked(s: Ap, p: Packet)
    requires Conserved(s) && p in s.mcastPsQueue
    ensures p !in s.more
  {
    OnceOnly(s.given, p);
  }

  lemma MarkedWhenFollowed(s: Ap, i: nat)
    requires Conserved(s) && McastSorted(s) && i < Movable(s)
    ensures var batch := Reverse(s.mcastPsQueue[..Movable(s)]); batch[i] in Dtim(s).more <==> i + 1 < |batch|
  {
    hide DtimLoop, BcmcClearFrom, Movable, Conserved;
    assert Shape(s) by {
      ConservedShape(s);
    }
    var m, k := s.mcastPsQueue, Movable(s);
    DtimLoopMoves(s, 0);
    BcmcKept(DtimLoop(s, 0), 0);
    var p := m[k - 1 - i];
    assert Reverse(m[..k])[i] == p;
    Unmarked(s, p);
    var marks := set j | 1 <= j < k :: m[j];
    if i + 1 < k {
      assert m[k - 1 - i] in marks;
    } else {
      assert forall j :: 1 <= j < k ==> m[j].no < m[0].no;
    }
  }

  lemma ConservedShape(s: Ap)
    requires Conserved(s)
    ensures Shape(s)
  {
  }

  /** Each multicast packet of the batch is marked MoreData exactly when another one of the batch follows it;
      the last one is not marked even if older packets had to stay behind. */
  lemma DtimMoreData(s0: Ap, es: seq<Event>, i: nat)
    requires Init(s0) && Run(s0, es) && i < Movable(Exec(s0, es))
    ensures var s := Exec(s0, es); var batch := Reverse(s.mcastPsQueue[..Movable(s)]);
            batch[i] in Dtim(s).more <==> i + 1 < |batch|
  {
    hide Dtim, Exec, Run, McastSorted, Movable, Conserved;
    FirstSorted(s0);
    RunSorted(s0, es);
    InitConserved(s0);
    RunConserves(s0, es);
    MarkedWhenFollowed(Exec(s0, es), i);
  }
}
