/** A-MSDU aggregation (ap/ap_data.c), de-aggregation by section 8.3.2.2 of IEEE 802.11-2012, and the de-aggregator of
    the driver itself (common/cmm_data.c). */
module Amsdu {
  import opened Bytes
  import opened Wrappers

  const LENGTH_AMSDU_SUBFRAMEHEAD := 14
  const LENGTH_802_3 := 14
  const MAC_ADDR_LEN := 6

  const SNAP_802_1H: Bytes := [0xaa, 0xaa, 0x03, 0x00, 0x00, 0x00]
  const SNAP_BRIDGE_TUNNEL: Bytes := [0xaa, 0xaa, 0x03, 0x00, 0x00, 0xf8]
  const IPX: Bytes := [0x81, 0x37]
  const APPLE_TALK: Bytes := [0x80, 0xf3]

  /** An Ethernet frame without its VLAN tag: two addresses, type or length, and data.  `ok` is the outcome of
      RTMP_FillTxBlkInfo. */
  datatype Frame = Frame(da: Bytes, sa: Bytes, kind: Bytes, data: Bytes, ok: bool)

  // What an MSDU is to a receiver.
  datatype Part = Part(da: Bytes, sa: Bytes, payload: Bytes)

  // The longest frame whose subframe length fits in two octets.
  predicate Fits(f: Frame) {
    |f.da| == MAC_ADDR_LEN && |f.sa| == MAC_ADDR_LEN && |f.kind| == 2 && |f.data| + 8 < 65536
  }

  predicate AllFit(fs: seq<Frame>) {
    forall f :: f in fs ==> Fits(f)
  }

  // `kind` is a type, not a length.
  predicate IsType(kind: Bytes)
    requires |kind| == 2
  {
    Join16(kind[0], kind[1]) > 1500
  }

  predicate Tunnelled(kind: Bytes) {
    kind == IPX || kind == APPLE_TALK
  }

  /** EXTRA_LLCSNAP_ENCAP_FROM_PKT_OFFSET with the type copied behind it. */
  function Llc(f: Frame): (llc: Bytes)
    requires Fits(f)
    ensures |llc| == 0 || |llc| == 8
  {
    if !IsType(f.kind) then []
    else (if Tunnelled(f.kind) then SNAP_BRIDGE_TUNNEL else SNAP_802_1H) + f.kind
  }

  function PartOf(f: Frame): Part
    requires Fits(f)
  {
    Part(f.da, f.sa, Llc(f) + f.data)
  }

  function Subframe(p: Part): Bytes {
    p.da + p.sa + Split16(|p.payload|) + p.payload
  }

  // The octets that bring a subframe with `n` octets of payload to a multiple of 4.
  function PadLen(n: nat): (k: nat)
    ensures k < 4 && (LENGTH_AMSDU_SUBFRAMEHEAD + n + k) % 4 == 0
  {
    (4 - (LENGTH_AMSDU_SUBFRAMEHEAD + n) % 4) % 4
  }

  function Zeros(k: nat): (z: Bytes)
    ensures |z| == k
  {
    seq(k, _ => 0 as Byte)
  }

  // The frames that are not released, as MSDUs.
  function Kept(fs: seq<Frame>): (ps: seq<Part>)
    requires AllFit(fs)
    ensures forall p :: p in ps ==> WellFormed(p)
  {
    if fs == [] then [] else (if fs[0].ok then [PartOf(fs[0])] else []) + Kept(fs[1..])
  }

  predicate WellFormed(p: Part) {
    |p.da| == MAC_ADDR_LEN && |p.sa| == MAC_ADDR_LEN && |p.payload| < 65536
  }

  // A subframe with the padding that another subframe after it needs.
  function Padded(p: Part): Bytes {
    Subframe(p) + Zeros(PadLen(|p.payload|))
  }

  /** The frame body: every subframe but the last is padded. */
  function Body(ps: seq<Part>): Bytes {
    if ps == [] then [] else if |ps| == 1 then Subframe(ps[0]) else Padded(ps[0]) + Body(ps[1..])
  }

  // ---------- the builder adds subframes at the end ----------

  lemma {:induction false} BodyAppend(ps: seq<Part>, p: Part)
    requires ps != []
    ensures Body(ps + [p]) == Body(ps) + Zeros(PadLen(|ps[|ps| - 1].payload|)) + Subframe(p)
  {
    var z := Zeros(PadLen(|ps[|ps| - 1].payload|));
    hide Subframe, PadLen, Zeros;
    if |ps| == 1 {
      assert (ps + [p])[1..] == [p];
    } else {
      BodyAppend(ps[1..], p);
      assert (ps + [p])[1..] == ps[1..] + [p];
      Joined(Padded(ps[0]), Body(ps[1..]), z);
      Joined(Padded(ps[0]), Body(ps[1..]) + z, Subframe(p));
    }
  }

  lemma {:induction false} KeptAppend(a: seq<Frame>, b: seq<Frame>)
    requires AllFit(a + b)
    ensures AllFit(a) && AllFit(b)
    ensures Kept(a + b) == Kept(a) + Kept(b)
  {
    assert forall f :: f in a || f in b ==> f in a + b;
    if a == [] {
      assert a + b == b;
    } else {
      assert (a + b)[1..] == a[1..] + b;
      KeptAppend(a[1..], b);
      Joined(if a[0].ok then [PartOf(a[0])] else [], Kept(a[1..]), Kept(b));
    }
  }

  lemma SubframeOf(f: Frame)
    requires Fits(f)
    ensures f.da + f.sa + Split16(|PartOf(f).payload|) + Llc(f) + f.data == Subframe(PartOf(f))
  {
    Joined(f.da + f.sa + Split16(|PartOf(f).payload|), Llc(f), f.data);
  }

  lemma {:induction false} DroppedAppend(a: seq<Frame>, f: Frame)
    ensures Dropped(a + [f]) == Dropped(a) + (if f.ok then [] else [f])
  {
    if a == [] {
      assert [] + [f] == [f];
    } else {
      assert (a + [f])[1..] == a[1..] + [f];
      DroppedAppend(a[1..], f);
      Joined(if a[0].ok then [] else [a[0]], Dropped(a[1..]), if f.ok then [] else [f]);
    }
  }

  lemma KeptSnoc(fs: seq<Frame>, f: Frame)
    requires AllFit(fs + [f])
    ensures AllFit(fs) && Fits(f)
    ensures f.ok ==> Kept(fs + [f]) == Kept(fs) + [PartOf(f)]
    ensures !f.ok ==> Kept(fs + [f]) == Kept(fs)
  {
    KeptAppend(fs, [f]);
    assert f in [f];
    assert Kept([]) == [];
  }

  // What the builder adds for one more subframe.
  function Addition(ps: seq<Part>, p: Part): Bytes {
    (if ps == [] then [] else Zeros(PadLen(|ps[|ps| - 1].payload|))) + Subframe(p)
  }

  lemma BodySnoc(ps: seq<Part>, p: Part)
    ensures Body(ps + [p]) == Body(ps) + Addition(ps, p)
  {
    hide Subframe, PadLen, Zeros;
    if ps == [] {
      assert [] + [p] == [p];
    } else {
      BodyAppend(ps, p);
      Joined(Body(ps), Zeros(PadLen(|ps[|ps| - 1].payload|)), Subframe(p));
    }
  }

  lemma NothingYet()
    ensures Kept([]) == [] && Body([]) == [] && Dropped([]) == []
  {
  }

  lemma ModSum(x: nat, y: nat)
    ensures (x % 65536 + y) % 65536 == (x + y) % 65536
  {
  }

  class AmsduTx {
    var txPacketList: seq<Frame>
    var mpduHeaderLen: nat
    var totalMpduSize: nat
    var released: seq<Frame>
    var written: Bytes               // the octets after the 802.11 header

    constructor (list: seq<Frame>, headerLen: nat)
      ensures txPacketList == list && mpduHeaderLen == headerLen && totalMpduSize == 0 && released == [] && written == []
    {
      txPacketList, mpduHeaderLen, totalMpduSize, released, written := list, headerLen, 0, [], [];
    }

    /** One more subframe: padding for the one before, subframe header, LLC header and data. */
    method AddSubframe(f: Frame, first: bool, prevLen: nat, ghost ps: seq<Part>) returns (payloadLen: nat)
      requires Fits(f) && (first <==> ps == []) && (!first ==> prevLen == |ps[|ps| - 1].payload|)
      modifies this`mpduHeaderLen, this`totalMpduSize, this`written
      ensures payloadLen == |PartOf(f).payload|
      ensures written == old(written) + Addition(ps, PartOf(f))
      ensures totalMpduSize
              == (old(totalMpduSize) + (if first then old(mpduHeaderLen) else 0) + |Addition(ps, PartOf(f))|) % 65536
    {
      var padding := 0;
      if !first {
        padding := (LENGTH_AMSDU_SUBFRAMEHEAD + prevLen + 3) / 4 * 4 - (LENGTH_AMSDU_SUBFRAMEHEAD + prevLen);
        mpduHeaderLen := padding;
      }
      mpduHeaderLen := mpduHeaderLen + LENGTH_AMSDU_SUBFRAMEHEAD;
      payloadLen := |f.data|;
      var llc: Bytes := [];
      if IsType(f.kind) {
        llc := (if Tunnelled(f.kind) then SNAP_BRIDGE_TUNNEL else SNAP_802_1H) + f.kind;
        mpduHeaderLen := mpduHeaderLen + 8;
        payloadLen := payloadLen + 8;
      }
      assert llc == Llc(f);
      assert !first ==> padding == PadLen(prevLen);
      var front := if first then [] else Zeros(padding);
      var header := f.da + f.sa + Split16(payloadLen) + llc;
      SubframeOf(f);
      written := written + (front + (header + f.data));
      totalMpduSize := (totalMpduSize + (mpduHeaderLen + |f.data|)) % 65536;
    }

    // After the packets `done` have been handled; `headerLen` is the length of the 802.11 header.
    ghost predicate Built(done: seq<Frame>, headerLen: nat, frameNum: nat, payloadLen: nat)
      requires AllFit(done)
      reads this
    {
      var ps := Kept(done);
      && frameNum == |ps| && written == Body(ps)
      && (if ps == [] then mpduHeaderLen == headerLen && totalMpduSize == 0
          else payloadLen == |ps[|ps| - 1].payload| && totalMpduSize == (headerLen + |written|) % 65536)
    }

    // One round of the loop.
    method HandleHead(ghost done: seq<Frame>, ghost headerLen: nat, frameNum: nat, payloadLen: nat)
      returns (frameNum': nat, payloadLen': nat)
      requires txPacketList != [] && AllFit(done + [txPacketList[0]])
      requires AllFit(done) && Built(done, headerLen, frameNum, payloadLen)
      modifies this
      ensures var f := old(txPacketList[0]);
              && Built(done + [f], headerLen, frameNum', payloadLen')
              && released == old(released) + (if f.ok then [] else [f])
              && txPacketList == old(txPacketList[1..])
    {
      hide Kept, Body, Addition, Fits, PartOf, Dropped;
      var f := txPacketList[0];
      txPacketList := txPacketList[1..];
      KeptSnoc(done, f);
      NothingYet();
      frameNum', payloadLen' := frameNum, payloadLen;
      if f.ok {
        BodySnoc(Kept(done), PartOf(f));
        payloadLen' := AddSubframe(f, frameNum == 0, payloadLen, Kept(done));
        ModSum(headerLen + |Body(Kept(done))|, |Addition(Kept(done), PartOf(f))|);
        frameNum' := frameNum + 1;
      } else {
        released := released + [f];
      }
    }

    /** AP_AMSDU_Frame_Tx: packets that fail RTMP_FillTxBlkInfo are released, all others go into one A-MSDU. */
    method Transmit()
      requires AllFit(txPacketList)
      requires totalMpduSize == 0 && written == []
      modifies this
      ensures txPacketList == []
      ensures released == old(released) + Dropped(old(txPacketList))
      ensures written == Body(Kept(old(txPacketList)))
      ensures Kept(old(txPacketList)) != [] ==> totalMpduSize == (old(mpduHeaderLen) + |written|) % 65536
    {
      hide Kept, Body, Dropped, Fits;
      NothingYet();
      var frameNum, payloadLen := 0, 0;
      ghost var headerLen, list, k := mpduHeaderLen, txPacketList, 0;
      while txPacketList != []
        invariant 0 <= k <= |list| && txPacketList == list[k..]
        invariant AllFit(list[..k]) && Built(list[..k], headerLen, frameNum, payloadLen)
        invariant released == old(released) + Dropped(list[..k])
        decreases |txPacketList|
      {
        assert list[..k + 1] == list[..k] + [list[k]];
        DroppedAppend(list[..k], list[k]);
        frameNum, payloadLen := HandleHead(list[..k], headerLen, frameNum, payloadLen);
        k := k + 1;
      }
      assert list[..k] == list;
    }
  }

  function Dropped(fs: seq<Frame>): seq<Frame> {
    if fs == [] then [] else (if fs[0].ok then [] else [fs[0]]) + Dropped(fs[1..])
  }

  // ---------- shape of the body ----------

  function Lengths(ps: seq<Part>): nat {
    if ps == [] then 0
    else LENGTH_AMSDU_SUBFRAMEHEAD + |ps[0].payload| + (if |ps| == 1 then 0 else PadLen(|ps[0].payload|)) + Lengths(ps[1..])
  }

  /** Every subframe but the last starts the next one at a multiple of 4; nothing follows the last. */
  lemma PartLengths(p: Part)
    requires WellFormed(p)
    ensures |Subframe(p)| == LENGTH_AMSDU_SUBFRAMEHEAD + |p.payload|
    ensures |Padded(p)| == LENGTH_AMSDU_SUBFRAMEHEAD + |p.payload| + PadLen(|p.payload|) && |Padded(p)| % 4 == 0
  {
  }

  lemma {:induction false} BodyLength(ps: seq<Part>)
    requires forall p :: p in ps ==> WellFormed(p)
    ensures |Body(ps)| == Lengths(ps)
    ensures |ps| >= 1 ==> Body(ps) != []
                          && (|Body(ps)| - LENGTH_AMSDU_SUBFRAMEHEAD - |ps[|ps| - 1].payload|) % 4 == 0
  {
    hide Subframe, Padded, PadLen;
    if |ps| == 1 {
      PartLengths(ps[0]);
      assert Lengths(ps[1..]) == 0;
    } else if |ps| > 1 {
      PartLengths(ps[0]);
      BodyLength(ps[1..]);
      assert ps[|ps| - 1] == ps[1..][|ps| - 2];
    }
  }

  /** A subframe, octet by octet (section 8.3.2.2 of IEEE 802.11-2012): the addresses, the number of octets that follow with its
      high octet first, and the data, behind an LLC header if the frame carries a type, which is the one for bridge tunnels for
      IPX and AppleTalk and that of 802.1H otherwise.  Zeros bring all but the last to a multiple of 4. */
  lemma OnAir(f: Frame)
    requires Fits(f)
    ensures var b, k := Subframe(PartOf(f)), f.kind;
            && |b| >= 14 && b[..6] == f.da && b[6..12] == f.sa && 256 * b[12] as nat + b[13] as nat == |b| - 14
            && b[14..] == (if 256 * k[0] as nat + k[1] as nat > 1500
                           then [0xaa, 0xaa, 0x03, 0x00, 0x00, if k == [0x81, 0x37] || k == [0x80, 0xf3] then 0xf8 else 0x00] + k
                           else []) + f.data
    ensures var b, p := Subframe(PartOf(f)), Padded(PartOf(f));
            b <= p && |p| % 4 == 0 && |p| < |b| + 4 && forall j :: |b| <= j < |p| ==> p[j] == 0
  {
    var p := PartOf(f);
    FirstSubframe(p, []);
    NothingAdded(Subframe(p));
    PartLengths(p);
    var b := Subframe(p);
    assert b[14..] == b[14..|b|];
  }

  // ---------- de-aggregation by the standard ----------

  function RoundUp4(n: nat): nat {
    (n + 3) / 4 * 4
  }

  /** Section 8.3.2.2 of IEEE 802.11-2012: subframes follow one another, all but the last padded to a multiple of 4. */
  function Deaggregate(body: Bytes): Option<seq<Part>>
    decreases |body|
  {
    if body == [] then Some([])
    else if |body| < LENGTH_AMSDU_SUBFRAMEHEAD then None
    else
      var end := LENGTH_AMSDU_SUBFRAMEHEAD + Join16(body[12], body[13]);
      if end > |body| then None
      else
        var part := Part(body[..6], body[6..12], body[14..end]);
        if end == |body| then Some([part])
        else if RoundUp4(end) > |body| then None
        else
          match Deaggregate(body[RoundUp4(end)..])
          case None => None
          case Some(ps) => Some([part] + ps)
  }

  // What a receiver finds at the start of a body that begins with the subframe of `p`.
  lemma FirstSubframe(p: Part, tail: Bytes)
    requires WellFormed(p)
    ensures var body := Subframe(p) + tail; var end := LENGTH_AMSDU_SUBFRAMEHEAD + |p.payload|;
            && |body| == end + |tail| && Join16(body[12], body[13]) == |p.payload|
            && body[..6] == p.da && body[6..12] == p.sa && body[14..end] == p.payload && body[end..] == tail
  {
    hide Split16, Join16;
    var n := |p.payload|;
    JoinSplit(n);
    SmallMod(n);
    var front := p.da + p.sa;
    var field := Split16(n);
    var body := Subframe(p) + tail;
    assert body == front + field + p.payload + tail;
    assert body[12] == field[0] && body[13] == field[1];
    assert body[..12] == front;
    assert body[..6] == front[..6] == p.da && body[6..12] == front[6..] == p.sa;
  }

  lemma SmallMod(n: nat)
    requires n < 65536
    ensures n % 65536 == n
  {
  }

  lemma ZerosThen(p: Part, rest: Bytes)
    requires WellFormed(p)
    ensures var end := LENGTH_AMSDU_SUBFRAMEHEAD + |p.payload|;
            && RoundUp4(end) == end + PadLen(|p.payload|)
            && Padded(p) + rest == Subframe(p) + (Zeros(PadLen(|p.payload|)) + rest)
            && |Zeros(PadLen(|p.payload|)) + rest| == PadLen(|p.payload|) + |rest|
            && (Zeros(PadLen(|p.payload|)) + rest)[PadLen(|p.payload|)..] == rest
  {
    Joined(Subframe(p), Zeros(PadLen(|p.payload|)), rest);
  }

  lemma DeaggregateFirst(p: Part, rest: Bytes)
    requires WellFormed(p) && rest != []
    ensures Deaggregate(Padded(p) + rest)
            == match Deaggregate(rest) { case None => None case Some(ps) => Some([p] + ps) }
  {
    hide Subframe, PadLen, Zeros, Padded, RoundUp4;
    var tail := Zeros(PadLen(|p.payload|)) + rest;
    ZerosThen(p, rest);
    FirstSubframe(p, tail);
    var body := Subframe(p) + tail;
    var end := LENGTH_AMSDU_SUBFRAMEHEAD + |p.payload|;
    assert body[RoundUp4(end)..] == body[end..][PadLen(|p.payload|)..];
  }

  lemma DeaggregateLast(p: Part)
    requires WellFormed(p)
    ensures Deaggregate(Subframe(p)) == Some([p])
  {
    hide Subframe;
    FirstSubframe(p, []);
    assert Subframe(p) + [] == Subframe(p);
  }

  lemma {:induction false} DeaggregateBody(ps: seq<Part>)
    requires forall p :: p in ps ==> WellFormed(p)
    ensures Deaggregate(Body(ps)) == Some(ps)
  {
    hide Subframe, Padded, PadLen, Zeros, RoundUp4;
    if |ps| == 1 {
      DeaggregateLast(ps[0]);
      assert [ps[0]] == ps;
    } else if |ps| > 1 {
      BodyLength(ps[1..]);
      DeaggregateBody(ps[1..]);
      DeaggregateFirst(ps[0], Body(ps[1..]));
      assert [ps[0]] + ps[1..] == ps;
    }
  }

  /** De-aggregating what the builder made of any list of packets returns the addresses, LLC header and data of exactly
      the packets that were not released, in order. */
  lemma RoundTrip(fs: seq<Frame>)
    requires AllFit(fs)
    ensures Deaggregate(Body(Kept(fs))) == Some(Kept(fs))
  {
    DeaggregateBody(Kept(fs));
  }

  // ---------- de-aggregation by the driver ----------

  // CONVERT_TO_802_3 removes the LLC header.
  predicate LlcRemoved(payload: Bytes) {
    && |payload| >= 8
    && (payload[..6] == SNAP_BRIDGE_TUNNEL || (payload[..6] == SNAP_802_1H && !Tunnelled(payload[6..8])))
  }

  /** The Ethernet frame passed up for one subframe.  If an LLC header was removed, the new header takes its place;
      otherwise the new header is written over the first octets of the payload. */
  function PassedUp(p: Part): Bytes
    requires WellFormed(p)
  {
    if LlcRemoved(p.payload) then p.da + p.sa + p.payload[6..8] + p.payload[8..]
    else
      var header := p.da + p.sa + Split16(|p.payload|);
      if |p.payload| <= LENGTH_802_3 then header[..|p.payload|] else header + p.payload[LENGTH_802_3..]
  }

  // The size of the subframe at the start of the body, by its length field.
  function Size(body: Bytes): nat
    requires |body| > LENGTH_802_3
  {
    Join16(body[12], body[13]) + LENGTH_802_3
  }

  // The driver accepts the subframe at the start of the body.
  predicate Accepts(body: Bytes) {
    |body| > LENGTH_802_3 && |body| >= Size(body) && Size(body) <= 1518 + LENGTH_802_3
  }

  // The driver goes on to another subframe after it.
  predicate Continues(body: Bytes)
    requires Accepts(body)
  {
    32 <= RoundUp4(Size(body)) <= 1528 && |body| > RoundUp4(Size(body))
  }

  function FirstPart(body: Bytes): Part
    requires Accepts(body)
  {
    Part(body[..6], body[6..12], body[14..Size(body)])
  }

  /** deaggregate_AMSDU_announce: the Ethernet frames passed up for an A-MSDU. */
  function Announced(body: Bytes): seq<Bytes>
    decreases |body|
  {
    if !Accepts(body) then []
    else if !Continues(body) then [PassedUp(FirstPart(body))]
    else [PassedUp(FirstPart(body))] + Announced(body[RoundUp4(Size(body))..])
  }

  // The frame as the sender's host gave it.
  function Ethernet(f: Frame): Bytes {
    f.da + f.sa + f.kind + f.data
  }

  /** The loop of deaggregate_AMSDU_announce. */
  method Deliver(body: array<Byte>) returns (up: seq<Bytes>)
    ensures up == Announced(body[..])
  {
    hide PassedUp, RoundUp4, Announced;
    up := [];
    var at, more := 0, true;
    assert body[0..] == body[..];
    while more && body.Length - at > LENGTH_802_3
      invariant at <= body.Length
      invariant more ==> Announced(body[..]) == up + Announced(body[at..])
      invariant !more ==> Announced(body[..]) == up
      decreases body.Length - at, more
    {
      ghost var rest := body[at..];
      AnnouncedUnfold(rest);
      var size := Join16(body[at + 12], body[at + 13]) + LENGTH_802_3;
      if body.Length - at < size || size > 1518 + LENGTH_802_3 {
        more := false;
        assert up + [] == up;
      } else {
        SliceParts(body[..], at, size);
        var frame := PassedUp(Part(body[at..at + 6], body[at + 6..at + 12], body[at + 14..at + size]));
        assert frame == PassedUp(FirstPart(rest));
        var next := RoundUp4(size);
        RoundUpBounds(size);
        if next > 1528 || next < 32 || body.Length - at <= next {
          more := false;
          assert [frame] + [] == [frame];
        } else {
          at := at + next;
          assert body[at..] == rest[next..];
          assert up + ([frame] + Announced(body[at..])) == up + [frame] + Announced(body[at..]);
        }
        up := up + [frame];
      }
    }
    if more {
      AnnouncedUnfold(body[at..]);
      assert up + [] == up;
    }
  }

  lemma RoundUpBounds(n: nat)
    ensures n <= RoundUp4(n) < n + 4
  {
  }

  lemma SliceParts(body: Bytes, at: nat, size: nat)
    requires 14 <= size && at + size <= |body|
    ensures body[at..][..6] == body[at..at + 6] && body[at..][6..12] == body[at + 6..at + 12]
    ensures body[at..][14..size] == body[at + 14..at + size]
  {
  }

  // The driver goes on after a subframe with `n` octets of payload.
  predicate GoesOn(n: nat) {
    15 <= n <= 1514
  }

  // All subframes are passed up: the last one may be shorter or longer than the others.
  predicate AllPass(ps: seq<Part>) {
    (forall i :: 0 <= i < |ps| - 1 ==> GoesOn(|ps[i].payload|))
    && (|ps| >= 1 ==> 1 <= |ps[|ps| - 1].payload| <= 1518)
  }

  function AllUp(ps: seq<Part>): (up: seq<Bytes>)
    requires forall p :: p in ps ==> WellFormed(p)
    ensures |up| == |ps|
  {
    if ps == [] then [] else [PassedUp(ps[0])] + AllUp(ps[1..])
  }

  // What the driver does with the first of several subframes.
  lemma AnnouncedFirst(p: Part, rest: Bytes)
    requires WellFormed(p) && |rest| >= LENGTH_802_3
    ensures Announced(Padded(p) + rest)
            == if |p.payload| > 1518 then [] else [PassedUp(p)] + if GoesOn(|p.payload|) then Announced(rest) else []
  {
    hide Subframe, Zeros, PassedUp, Announced, Padded, PadLen;
    FirstOfMany(p, rest);
    AnnouncedUnfold(Padded(p) + rest);
  }

  lemma AnnouncedUnfold(body: Bytes)
    ensures !Accepts(body) ==> Announced(body) == []
    ensures Accepts(body) ==>
              Announced(body) == [PassedUp(FirstPart(body))]
                                 + if Continues(body) then Announced(body[RoundUp4(Size(body))..]) else []
  {
  }

  lemma FirstOfMany(p: Part, rest: Bytes)
    requires WellFormed(p) && |rest| >= LENGTH_802_3
    ensures var body := Padded(p) + rest;
            && (Accepts(body) <==> |p.payload| <= 1518)
            && (Accepts(body) ==> FirstPart(body) == p && (Continues(body) <==> GoesOn(|p.payload|)))
            && (Accepts(body) && Continues(body) ==> body[RoundUp4(Size(body))..] == rest)
  {
    hide Subframe, Zeros, Padded;
    var tail := Zeros(PadLen(|p.payload|)) + rest;
    ZerosThen(p, rest);
    FirstSubframe(p, tail);
    var body := Subframe(p) + tail;
    var end := LENGTH_AMSDU_SUBFRAMEHEAD + |p.payload|;
    if RoundUp4(end) <= |body| {
      assert body[RoundUp4(end)..] == body[end..][PadLen(|p.payload|)..];
    }
  }

  lemma AnnouncedLast(p: Part)
    requires WellFormed(p)
    ensures Announced(Subframe(p)) == if 1 <= |p.payload| <= 1518 then [PassedUp(p)] else []
  {
    hide Subframe, PassedUp;
    FirstSubframe(p, []);
    assert Subframe(p) + [] == Subframe(p);
  }

  lemma {:induction false} AnnouncedCount(ps: seq<Part>)
    requires forall p :: p in ps ==> WellFormed(p)
    ensures |Announced(Body(ps))| <= |ps|
    ensures AllPass(ps) ==> Announced(Body(ps)) == AllUp(ps)
    ensures |Announced(Body(ps))| == |ps| ==> AllPass(ps)
  {
    hide Subframe, Padded, PassedUp, AllPass, GoesOn, Announced;
    if ps == [] {
      NothingAnnounced();
    } else if |ps| == 1 {
      AnnouncedLast(ps[0]);
      OnePasses(ps);
    } else {
      var rest := ps[1..];
      BodyLength(rest);
      BodyNotShort(rest);
      AnnouncedFirst(ps[0], Body(rest));
      AnnouncedCount(rest);
      MorePass(ps);
    }
  }

  lemma NothingAnnounced()
    ensures Announced([]) == [] && AllPass([]) && AllUp([]) == []
  {
  }

  lemma OnePasses(ps: seq<Part>)
    requires |ps| == 1 && WellFormed(ps[0])
    ensures AllPass(ps) <==> 1 <= |ps[0].payload| <= 1518
    ensures (forall p :: p in ps ==> WellFormed(p)) && AllUp(ps) == [PassedUp(ps[0])]
  {
    hide PassedUp;
    assert AllUp(ps[1..]) == [];
  }

  lemma MorePass(ps: seq<Part>)
    requires |ps| > 1
    ensures AllPass(ps) <==> GoesOn(|ps[0].payload|) && AllPass(ps[1..])
    ensures GoesOn(|ps[0].payload|) ==> |ps[0].payload| <= 1518
  {
    var rest := ps[1..];
    assert ps[|ps| - 1] == rest[|rest| - 1];
    assert forall i :: 1 <= i < |ps| ==> ps[i] == rest[i - 1];
  }

  lemma BodyNotShort(ps: seq<Part>)
    requires ps != [] && forall p :: p in ps ==> WellFormed(p)
    ensures |Body(ps)| >= LENGTH_802_3
  {
    PartLengths(ps[0]);
  }

  lemma TypeRemoved(f: Frame)
    requires Fits(f) && IsType(f.kind)
    ensures var p := PartOf(f); LlcRemoved(p.payload) && p.payload[6..8] == f.kind && p.payload[8..] == f.data
  {
    var p := PartOf(f);
    assert p.payload[..6] == Llc(f)[..6] == if Tunnelled(f.kind) then SNAP_BRIDGE_TUNNEL else SNAP_802_1H;
    assert p.payload[6..8] == Llc(f)[6..8] == f.kind;
    assert p.payload[8..] == f.data;
  }

  /** One frame survives aggregation and the driver's own de-aggregation unchanged if and only if it carries a type; a
      frame that carries a length loses octets of its data to the header written over them. */
  lemma PassedUpUnchanged(f: Frame)
    requires Fits(f)
    ensures PassedUp(PartOf(f)) == Ethernet(f) <==> IsType(f.kind)
  {
    var p := PartOf(f);
    if IsType(f.kind) {
      TypeRemoved(f);
    } else {
      assert p.payload == f.data;
      assert |PassedUp(p)| < |Ethernet(f)|;
    }
  }

  /** The driver's own de-aggregator passes up every packet that was not released, if and only if all payloads but the
      last have 15 to 1514 octets and the last 1 to 1518. */
  lemma DriverRoundTrip(fs: seq<Frame>)
    requires AllFit(fs)
    ensures Announced(Body(Kept(fs))) == AllUp(Kept(fs)) <==> AllPass(Kept(fs))
  {
    AnnouncedCount(Kept(fs));
  }

  // The Ethernet frames of the packets that were not released, as the sender's host gave them.
  function Ethernets(fs: seq<Frame>): seq<Bytes> {
    if fs == [] then [] else (if fs[0].ok then [Ethernet(fs[0])] else []) + Ethernets(fs[1..])
  }

  predicate AllTyped(fs: seq<Frame>) {
    forall i :: 0 <= i < |fs| && fs[i].ok && |fs[i].kind| == 2 ==> IsType(fs[i].kind)
  }

  lemma {:induction false} KeptOnce(fs: seq<Frame>)
    requires AllFit(fs)
    ensures |Ethernets(fs)| == |Kept(fs)|
    decreases fs
  {
    if fs != [] {
      KeptOnce(fs[1..]);
    }
  }

  lemma TypedTail(fs: seq<Frame>)
    requires AllFit(fs) && fs != []
    ensures AllFit(fs[1..]) && Fits(fs[0])
    ensures AllTyped(fs) <==> (fs[0].ok ==> IsType(fs[0].kind)) && AllTyped(fs[1..])
  {
    assert fs == [fs[0]] + fs[1..];
  }

  lemma KeptHead(fs: seq<Frame>)
    requires AllFit(fs) && fs != [] && Fits(fs[0]) && AllFit(fs[1..])
    ensures Kept(fs) == (if fs[0].ok then [PartOf(fs[0])] else []) + Kept(fs[1..])
  {
  }

  lemma UpHead(p: Part, ps: seq<Part>)
    requires forall q :: q in [p] + ps ==> WellFormed(q)
    ensures WellFormed(p) && AllUp([p] + ps) == [PassedUp(p)] + AllUp(ps)
  {
    assert p in [p] + ps;
    assert ([p] + ps)[1..] == ps;
  }

  lemma SameHead(a: Bytes, b: Bytes, s: seq<Bytes>, t: seq<Bytes>)
    ensures [a] + s == [b] + t <==> a == b && s == t
  {
    if [a] + s == [b] + t {
      assert ([a] + s)[0] == ([b] + t)[0] && ([a] + s)[1..] == s && ([b] + t)[1..] == t;
    }
  }

  lemma {:induction false} UpIsEthernet(fs: seq<Frame>)
    requires AllFit(fs)
    ensures AllUp(Kept(fs)) == Ethernets(fs) <==> AllTyped(fs)
    decreases fs
  {
    if fs != [] {
      TypedTail(fs);
      KeptHead(fs);
      UpIsEthernet(fs[1..]);
      hide PassedUp, PartOf, Ethernet, WellFormed, Kept, AllUp, IsType, AllTyped, Fits, AllFit;
      if fs[0].ok {
        UpHead(PartOf(fs[0]), Kept(fs[1..]));
        PassedUpUnchanged(fs[0]);
        SameHead(PassedUp(PartOf(fs[0])), Ethernet(fs[0]), AllUp(Kept(fs[1..])), Ethernets(fs[1..]));
      } else {
        NothingAdded(Kept(fs[1..]));
        NothingAdded(Ethernets(fs[1..]));
      }
    }
  }

  /** For any list of packets: aggregating them and de-aggregating with the driver's own loop gives back exactly the
      Ethernet frames of the packets that were not released, in order, if and only if their payloads have the accepted sizes
      and every one of them carries a type. */
  lemma EthernetRoundTrip(fs: seq<Frame>)
    requires AllFit(fs)
    ensures Announced(Body(Kept(fs))) == Ethernets(fs) <==> AllPass(Kept(fs)) && AllTyped(fs)
  {
    hide Announced, Body, Kept, AllUp, Ethernets, AllTyped, AllPass;
    AnnouncedCount(Kept(fs));
    KeptOnce(fs);
    UpIsEthernet(fs);
  }
}
