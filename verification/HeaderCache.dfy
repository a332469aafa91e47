/** The cached 802.11 header of A-MPDU frames (ap/ap_data.c): the fast path of AP_AMPDU_Frame_Tx against building every
    header anew, and the sequence numbers. */
module HeaderCache {
  import opened Wrappers

  const MAXSEQ := 0xFFF
  const NUM_OF_UP := 8

  type Mac = nat

  // The fields of the 802.11 header that the driver sets; those it leaves at zero are left out.
  datatype Header = Header(
    qosData: bool,
    moreData: bool,
    wep: bool,
    order: bool,
    addr1: Mac,
    addr2: Mac,
    addr3: Mac,
    seqNo: nat)

  // What goes in front of the payload: the header, the QoS control octet, and whether an HT control field follows.
  datatype Emitted = Emitted(header: Header, qos: Option<nat>, htc: bool)

  /** A frame for the station, with the settings that hold when it is sent. */
  datatype Frame = Frame(da: Mac, sa: Mac, up: nat, moreData: bool, wmm: bool, bssid: Mac, wep: bool, rdg: bool)

  // An A-MPDU frame, or a frame sent by itself, which may be forced to go without QoS.
  datatype Event = Ampdu(frame: Frame) | Legacy(frame: Frame, forceNonQos: bool)

  datatype Entry = Entry(isCached: bool, cached: Header, txSeq: seq<nat>, nonQosDataSeq: nat)

  predicate Shape(e: Entry) {
    |e.txSeq| == NUM_OF_UP
  }

  predicate FrameOk(f: Frame) {
    f.up < NUM_OF_UP
  }

  predicate EventsOk(es: seq<Event>) {
    forall k :: 0 <= k < |es| ==> FrameOk(es[k].frame)
  }

  function Next(n: nat): nat {
    (n + 1) % (MAXSEQ + 1)
  }

  function CountUp(e: Entry, up: nat): (t: Entry)
    requires Shape(e) && up < NUM_OF_UP
    ensures Shape(t)
  {
    e.(txSeq := e.txSeq[up := Next(e.txSeq[up])])
  }

  // APBuildCommon802_11Header for a frame numbered `seqNo`.
  function Common(f: Frame, seqNo: nat): Header {
    Header(f.wmm, f.moreData, f.wep, false, f.da, f.bssid, f.sa, seqNo)
  }

  // APBuildCache802_11Header for a frame numbered `seqNo`.
  function FromCache(h: Header, f: Frame, seqNo: nat): Header {
    h.(moreData := f.moreData, seqNo := seqNo, addr3 := f.sa)
  }

  // The HT control field sets the Order bit.
  function WithHtc(h: Header, rdg: bool): Header {
    if rdg then h.(order := true) else h
  }

  /** AP_AMPDU_Frame_Tx. */
  function AmpduTx(e: Entry, f: Frame): (r: (Emitted, Entry))
    requires Shape(e) && FrameOk(f)
    ensures Shape(r.1)
  {
    var n := e.txSeq[f.up];
    var h := WithHtc(if e.isCached then FromCache(e.cached, f, n) else Common(f, n), f.rdg);
    var t := CountUp(e, f.up);
    (Emitted(h, Some(f.up % 16), f.rdg), if e.isCached then t else t.(isCached := true, cached := h))
  }

  /** The same without a cache. */
  function PlainTx(e: Entry, f: Frame): (r: (Emitted, Entry))
    requires Shape(e) && FrameOk(f)
    ensures Shape(r.1)
  {
    (Emitted(WithHtc(Common(f, e.txSeq[f.up]), f.rdg), Some(f.up % 16), f.rdg), CountUp(e, f.up))
  }

  // A frame sent by itself always has its header built anew.
  function LegacyTx(e: Entry, f: Frame, forceNonQos: bool): (r: (Emitted, Entry))
    requires Shape(e) && FrameOk(f)
    ensures Shape(r.1)
  {
    var qos := if f.wmm then Some(f.up % 16) else None;
    if forceNonQos then (Emitted(Common(f, e.nonQosDataSeq), qos, false), e.(nonQosDataSeq := Next(e.nonQosDataSeq)))
    else (Emitted(Common(f, e.txSeq[f.up]), qos, false), CountUp(e, f.up))
  }

  function Send(e: Entry, v: Event, caching: bool): (r: (Emitted, Entry))
    requires Shape(e) && FrameOk(v.frame)
    ensures Shape(r.1)
  {
    match v
    case Ampdu(f) => if caching then AmpduTx(e, f) else PlainTx(e, f)
    case Legacy(f, force) => LegacyTx(e, f, force)
  }

  /** The headers emitted over a run. */
  function Run(e: Entry, es: seq<Event>, caching: bool): (r: seq<Emitted>)
    requires Shape(e) && EventsOk(es)
    ensures |r| == |es|
    decreases es
  {
    if es == [] then []
    else
      var (x, t) := Send(e, es[0], caching);
      [x] + Run(t, es[1..], caching)
  }

  // ---------- the cache ----------

  // The first A-MPDU frame, whose header is the one that is cached.
  function FirstAmpdu(es: seq<Event>): Option<Frame>
    decreases es
  {
    if es == [] then None else if es[0].Ampdu? then Some(es[0].frame) else FirstAmpdu(es[1..])
  }

  // What must not have changed since the cached frame for the cached header to be right.
  predicate SameSettings(first: Frame, f: Frame) {
    && f.da == first.da && f.bssid == first.bssid && f.wep == first.wep && f.wmm == first.wmm && (first.rdg ==> f.rdg)
  }

  // The two entries number frames alike, and the cache of the first holds the header of `first`.
  ghost predicate Alike(e: Entry, p: Entry, first: Option<Frame>) {
    && Shape(e) && Shape(p) && e.txSeq == p.txSeq && e.nonQosDataSeq == p.nonQosDataSeq
    && (e.isCached <==> first != None)
    && (first != None ==> exists n :: e.cached == WithHtc(Common(first.value, n), first.value.rdg))
  }

  lemma SendAlike(e: Entry, p: Entry, first: Option<Frame>, v: Event)
    requires Alike(e, p, first) && FrameOk(v.frame)
    ensures var first' := if first == None && v.Ampdu? then Some(v.frame) else first;
            && Alike(Send(e, v, true).1, Send(p, v, false).1, first')
            && (Send(e, v, true).0 == Send(p, v, false).0 <==> v.Legacy? || SameSettings(first'.value, v.frame))
  {
    if v.Ampdu? && first == None {
      assert Send(e, v, true).1.cached == WithHtc(Common(v.frame, e.txSeq[v.frame.up]), v.frame.rdg);
    }
  }

  lemma {:induction false} RunAlike(e: Entry, p: Entry, first: Option<Frame>, es: seq<Event>, k: nat)
    requires Alike(e, p, first) && EventsOk(es) && k < |es|
    ensures var first' := if first == None then FirstAmpdu(es[..k + 1]) else first;
            Run(e, es, true)[k] == Run(p, es, false)[k]
            <==> es[k].Legacy? || (first' != None && SameSettings(first'.value, es[k].frame))
    decreases es
  {
    hide Send, SameSettings;
    SendAlike(e, p, first, es[0]);
    if k > 0 {
      var first1 := if first == None && es[0].Ampdu? then Some(es[0].frame) else first;
      RunAlike(Send(e, es[0], true).1, Send(p, es[0], false).1, first1, es[1..], k - 1);
      assert es[..k + 1][1..] == es[1..][..k];
    } else {
      assert es[..1][0] == es[0];
    }
  }

  /** Over any run of frames to one station, the cached path emits the header that would be built anew if and only if the
      receiver, the BSSID, protection and QoS are those of the frame that filled the cache, and an HT control field that
      was there then is still there.  Frames sent by themselves are never affected. */
  lemma CacheExact(e: Entry, es: seq<Event>, k: nat)
    requires Shape(e) && !e.isCached && EventsOk(es) && k < |es|
    ensures Run(e, es, true)[k] == Run(e, es, false)[k]
            <==> es[k].Legacy? || (FirstAmpdu(es[..k + 1]) != None && SameSettings(FirstAmpdu(es[..k + 1]).value, es[k].frame))
  {
    RunAlike(e, e, None, es, k);
  }

  // All frames go to the station `addr` under the same settings.
  predicate Steady(es: seq<Event>, addr: Mac, bssid: Mac, wep: bool, wmm: bool, rdg: bool) {
    forall k :: 0 <= k < |es| && es[k].Ampdu? ==>
      var f := es[k].frame; f.da == addr && f.bssid == bssid && f.wep == wep && f.wmm == wmm && f.rdg == rdg
  }

  lemma {:induction false} FirstSteady(es: seq<Event>, addr: Mac, bssid: Mac, wep: bool, wmm: bool, rdg: bool)
    requires Steady(es, addr, bssid, wep, wmm, rdg)
    ensures var f := FirstAmpdu(es);
            f != None ==> f.value.da == addr && f.value.bssid == bssid && f.value.wep == wep && f.value.wmm == wmm && f.value.rdg == rdg
    ensures FirstAmpdu(es) == None ==> forall k :: 0 <= k < |es| ==> es[k].Legacy?
    decreases es
  {
    if es != [] {
      FirstSteady(es[1..], addr, bssid, wep, wmm, rdg);
      assert forall k :: 1 <= k < |es| ==> es[k] == es[1..][k - 1];
    }
  }

  /** With unchanged settings the cached path refines the plain one: the runs are identical. */
  lemma CacheRefines(e: Entry, es: seq<Event>, addr: Mac, bssid: Mac, wep: bool, wmm: bool, rdg: bool)
    requires Shape(e) && !e.isCached && EventsOk(es) && Steady(es, addr, bssid, wep, wmm, rdg)
    ensures Run(e, es, true) == Run(e, es, false)
  {
    hide Run;
    forall k | 0 <= k < |es|
      ensures Run(e, es, true)[k] == Run(e, es, false)[k]
    {
      CacheExact(e, es, k);
      assert Steady(es[..k + 1], addr, bssid, wep, wmm, rdg);
      FirstSteady(es[..k + 1], addr, bssid, wep, wmm, rdg);
      assert es[..k + 1][k] == es[k];
    }
  }

  // ---------- what the receiver reads ----------

  // A header from the distribution system to the receiver `da` through the BSS `bssid`, for a frame that `sa` has sent.
  predicate Addressed(h: Header, da: Mac, bssid: Mac, sa: Mac) {
    h.addr1 == da && h.addr2 == bssid && h.addr3 == sa
  }

  // The header tells what the frame is: its addresses, whether more data follows, protection, QoS and, in the Order bit and the
  // HT control field, reverse direction grant.
  predicate Tells(x: Emitted, v: Event) {
    var f := v.frame;
    && Addressed(x.header, f.da, f.bssid, f.sa)
    && x.header.moreData == f.moreData && x.header.wep == f.wep && x.header.qosData == f.wmm
    && x.header.order == x.htc == (v.Ampdu? && f.rdg)
    && x.qos == if v.Ampdu? || f.wmm then Some(f.up) else None
  }

  // An A-MPDU header from the cache: the settings are those of the frame that filled it, the rest is that of the frame itself.
  predicate TellsFirst(x: Emitted, first: Frame, f: Frame) {
    && Addressed(x.header, first.da, first.bssid, f.sa)
    && x.header.moreData == f.moreData && x.header.wep == first.wep && x.header.qosData == first.wmm
    && x.header.order == (first.rdg || f.rdg) && x.htc == f.rdg && x.qos == Some(f.up)
  }

  // The cache holds the settings of the frame that filled it.
  predicate Remembers(e: Entry, first: Option<Frame>) {
    && (e.isCached <==> first != None)
    && (first != None ==>
          var f, h := first.value, e.cached;
          h.addr1 == f.da && h.addr2 == f.bssid && h.wep == f.wep && h.qosData == f.wmm && h.order == f.rdg)
  }

  lemma SendTells(e: Entry, first: Option<Frame>, v: Event, caching: bool)
    requires Shape(e) && Remembers(e, first) && FrameOk(v.frame)
    ensures var (x, t) := Send(e, v, caching);
            var first' := if first == None && v.Ampdu? && caching then Some(v.frame) else first;
            && Remembers(t, first')
            && (v.Legacy? || !caching ==> Tells(x, v))
            && (v.Ampdu? && caching ==> TellsFirst(x, first'.value, v.frame))
  {
  }

  lemma {:induction false} RunTells(e: Entry, first: Option<Frame>, es: seq<Event>, caching: bool, k: nat)
    requires Shape(e) && Remembers(e, first) && EventsOk(es) && k < |es|
    ensures var x := Run(e, es, caching)[k];
            var first' := if first == None then FirstAmpdu(es[..k + 1]) else first;
            && (es[k].Legacy? || !caching ==> Tells(x, es[k]))
            && (es[k].Ampdu? && caching ==> first' != None && TellsFirst(x, first'.value, es[k].frame))
    decreases es
  {
    hide Send, Tells, TellsFirst, Remembers;
    SendTells(e, first, es[0], caching);
    assert es[..k + 1][0] == es[0];
    if k > 0 {
      var first1 := if first == None && es[0].Ampdu? && caching then Some(es[0].frame) else first;
      RunTells(Send(e, es[0], caching).1, first1, es[1..], caching, k - 1);
      assert es[..k + 1][1..] == es[1..][..k];
    }
  }

  /** What the receiver reads, over every run of frames to one station.  A header that is built anew tells exactly what the frame
      is.  A header from the cache has the receiver, the BSSID, protection and QoS of the frame that filled the cache, and
      its Order bit if it was set then; the source, MoreData, the priority and the HT control field are those of the frame. */
  lemma HeadersTell(e: Entry, es: seq<Event>, caching: bool, k: nat)
    requires Shape(e) && !e.isCached && EventsOk(es) && k < |es|
    ensures es[k].Legacy? || !caching ==> Tells(Run(e, es, caching)[k], es[k])
    ensures es[k].Ampdu? && caching ==>
              FirstAmpdu(es[..k + 1]) != None && TellsFirst(Run(e, es, caching)[k], FirstAmpdu(es[..k + 1]).value, es[k].frame)
  {
    hide Tells, TellsFirst, Send;
    RunTells(e, None, es, caching, k);
  }

  /** With unchanged settings every header of a run tells exactly what its frame is, on the cached path as on the plain one. */
  lemma SteadyHeadersTell(e: Entry, es: seq<Event>, caching: bool, k: nat, addr: Mac, bssid: Mac, wep: bool, wmm: bool, rdg: bool)
    requires Shape(e) && !e.isCached && EventsOk(es) && k < |es| && Steady(es, addr, bssid, wep, wmm, rdg)
    ensures Tells(Run(e, es, caching)[k], es[k])
  {
    hide Run;
    HeadersTell(e, es, caching, k);
    assert Steady(es[..k + 1], addr, bssid, wep, wmm, rdg);
    FirstSteady(es[..k + 1], addr, bssid, wep, wmm, rdg);
  }

  // ---------- sequence numbers ----------

  // The frame takes a number of its priority.
  predicate Numbered(v: Event, up: nat) {
    v.frame.up == up && (v.Ampdu? || !v.forceNonQos)
  }

  function CountBefore(es: seq<Event>, k: nat, up: nat): nat
    requires k <= |es|
  {
    if k == 0 then 0 else CountBefore(es, k - 1, up) + if Numbered(es[k - 1], up) then 1 else 0
  }

  lemma {:induction false} CountShift(es: seq<Event>, k: nat, up: nat)
    requires 1 <= k <= |es|
    ensures CountBefore(es, k, up) == (if Numbered(es[0], up) then 1 else 0) + CountBefore(es[1..], k - 1, up)
  {
    hide Numbered;
    if k > 1 {
      CountShift(es, k - 1, up);
      assert es[1..][k - 2] == es[k - 1];
    } else {
      assert CountBefore(es, 0, up) == 0 && CountBefore(es[1..], 0, up) == 0;
    }
  }

  lemma NextMod(n: nat, m: nat)
    requires n <= MAXSEQ
    ensures (Next(n) + m) % (MAXSEQ + 1) == (n + (1 + m)) % (MAXSEQ + 1)
  {
  }

  lemma SendNumbers(e: Entry, v: Event, caching: bool, up: nat)
    requires Shape(e) && FrameOk(v.frame) && up < NUM_OF_UP
    ensures Send(e, v, caching).1.txSeq[up] == if Numbered(v, up) then Next(e.txSeq[up]) else e.txSeq[up]
    ensures Numbered(v, v.frame.up) ==> Send(e, v, caching).0.header.seqNo == e.txSeq[v.frame.up]
  {
  }

  /** On both paths the sequence numbers of each priority are consecutive modulo 4096: the number of a frame is the start
      value plus the frames of its priority before it. */
  lemma {:induction false} Consecutive(e: Entry, es: seq<Event>, caching: bool, k: nat)
    requires Shape(e) && EventsOk(es) && k < |es| && Numbered(es[k], es[k].frame.up)
    requires e.txSeq[es[k].frame.up] <= MAXSEQ
    ensures var up := es[k].frame.up;
            Run(e, es, caching)[k].header.seqNo == (e.txSeq[up] + CountBefore(es, k, up)) % (MAXSEQ + 1)
    decreases es
  {
    hide Send, Numbered, Next;
    var up := es[k].frame.up;
    SendNumbers(e, es[0], caching, up);
    if k == 0 {
      assert CountBefore(es, 0, up) == 0;
    } else {
      var t := Send(e, es[0], caching).1;
      CountShift(es, k, up);
      NextSmall(e.txSeq[up]);
      Consecutive(t, es[1..], caching, k - 1);
      NextMod(e.txSeq[up], CountBefore(es[1..], k - 1, up));
    }
  }

  lemma NextSmall(n: nat)
    ensures Next(n) <= MAXSEQ
  {
  }

  predicate Forced(v: Event) {
    v.Legacy? && v.forceNonQos
  }

  function ForcedBefore(es: seq<Event>, k: nat): nat
    requires k <= |es|
  {
    if k == 0 then 0 else ForcedBefore(es, k - 1) + if Forced(es[k - 1]) then 1 else 0
  }

  lemma {:induction false} ForcedShift(es: seq<Event>, k: nat)
    requires 1 <= k <= |es|
    ensures ForcedBefore(es, k) == (if Forced(es[0]) then 1 else 0) + ForcedBefore(es[1..], k - 1)
  {
    hide Forced;
    if k > 1 {
      ForcedShift(es, k - 1);
      assert es[1..][k - 2] == es[k - 1];
    } else {
      assert ForcedBefore(es, 0) == 0 && ForcedBefore(es[1..], 0) == 0;
    }
  }

  lemma SendForced(e: Entry, v: Event, caching: bool)
    requires Shape(e) && FrameOk(v.frame)
    ensures Send(e, v, caching).1.nonQosDataSeq == if Forced(v) then Next(e.nonQosDataSeq) else e.nonQosDataSeq
    ensures Forced(v) ==> Send(e, v, caching).0.header.seqNo == e.nonQosDataSeq
  {
  }

  /** Frames that are forced to go without QoS are numbered consecutively modulo 4096 by a counter of their own. */
  lemma {:induction false} ForcedConsecutive(e: Entry, es: seq<Event>, caching: bool, k: nat)
    requires Shape(e) && EventsOk(es) && k < |es| && Forced(es[k]) && e.nonQosDataSeq <= MAXSEQ
    ensures Run(e, es, caching)[k].header.seqNo == (e.nonQosDataSeq + ForcedBefore(es, k)) % (MAXSEQ + 1)
    decreases es
  {
    hide Send, Forced, Next;
    SendForced(e, es[0], caching);
    if k == 0 {
      assert ForcedBefore(es, 0) == 0;
    } else {
      ForcedShift(es, k);
      NextSmall(e.nonQosDataSeq);
      ForcedConsecutive(Send(e, es[0], caching).1, es[1..], caching, k - 1);
      NextMod(e.nonQosDataSeq, ForcedBefore(es[1..], k - 1));
    }
  }

  // ---------- the entry ----------

  class MacEntry {
    var isCached: bool
    var cachedBuf: Header
    var txSeq: array<nat>
    var nonQosDataSeq: nat

    ghost function State(): Entry
      reads this, txSeq
    {
      Entry(isCached, cachedBuf, txSeq[..], nonQosDataSeq)
    }

    /** A new entry has an empty cache. */
    constructor ()
      ensures fresh(txSeq) && Shape(State()) && !isCached && txSeq[..] == seq(NUM_OF_UP, _ => 0) && nonQosDataSeq == 0
    {
      isCached, cachedBuf, nonQosDataSeq := false, Header(false, false, false, false, 0, 0, 0, 0), 0;
      txSeq := new nat[NUM_OF_UP](_ => 0);
    }

    /** The next sequence number of a priority. */
    method TakeSeq(up: nat) returns (n: nat)
      requires Shape(State()) && up < NUM_OF_UP
      modifies txSeq
      ensures n == old(txSeq[up]) && State() == CountUp(old(State()), up)
    {
      n := txSeq[up];
      txSeq[up] := (txSeq[up] + 1) % (MAXSEQ + 1);
    }

    /** The header of AP_AMPDU_Frame_Tx: loaded from the cache and patched, or built and cached. */
    method AmpduFrameTx(f: Frame) returns (r: Emitted)
      requires Shape(State()) && FrameOk(f)
      modifies this, txSeq
      ensures txSeq == old(txSeq) && (r, State()) == AmpduTx(old(State()), f)
    {
      var h: Header;
      var n := TakeSeq(f.up);
      if isCached {
        h := cachedBuf;
        h := h.(moreData := f.moreData, seqNo := n, addr3 := f.sa);
      } else {
        h := Header(f.wmm, f.moreData, f.wep, false, f.da, f.bssid, f.sa, n);
      }
      if f.rdg {
        h := h.(order := true);
      }
      r := Emitted(h, Some(f.up % 16), f.rdg);
      if !isCached {
        cachedBuf := h;
        isCached := true;
      }
    }
  }
}
