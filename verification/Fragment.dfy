/** Fragmentation (ap/ap_data.c): the loop of AP_Fragment_Frame_Tx that cuts an MSDU into MPDUs, the receiver of
    section 9.5 of IEEE 802.11-1999 that puts them together, and the estimate of APSendPacket. */
module Fragment {
  import opened Arith
  import opened Bytes
  import opened Wrappers

  const LENGTH_CRC := 4
  const LENGTH_802_11 := 24
  const LENGTH_802_3 := 14
  const LENGTH_802_1_H := 8
  const MIN_FRAG_THRESHOLD := 256
  const MAX_FRAGMENTS := 16           // the fragment number field has four bits

  // One MPDU without its CRC: `frag` and `moreFrag` are fields of its header, `next` is the length of the MPDU that its
  // duration field makes room for.
  datatype Mpdu = Mpdu(octets: Bytes, frag: nat, moreFrag: bool, next: nat)

  // The 802.11 header, the LLC header if one is inserted, and the fragmentation threshold.
  datatype Setup = Setup(header: Bytes, llc: Bytes, threshold: nat)

  // The threshold leaves room for at least one octet in every MPDU.
  predicate Sufficient(s: Setup) {
    (|s.llc| == 0 || |s.llc| == LENGTH_802_1_H) && s.threshold > LENGTH_CRC + |s.header| + |s.llc|
  }

  // FreeMpduSize in round `k`: the LLC header takes room in the first fragment only.
  function Free(s: Setup, k: nat): (n: nat)
    requires Sufficient(s)
    ensures n >= 1
  {
    s.threshold - LENGTH_CRC - |s.header| - (if k == 0 then |s.llc| else 0)
  }

  // The LLC header goes in the first fragment only.
  function Llc(s: Setup, k: nat): Bytes {
    if k == 0 then s.llc else []
  }

  function Min(a: nat, b: nat): nat {
    if a < b then a else b
  }

  // Round `k` of the loop with `data` still to be sent.
  function Cut(s: Setup, data: Bytes, k: nat): Mpdu
    requires Sufficient(s)
  {
    var front := s.header + Llc(s, k);
    if |data| <= Free(s, k) then Mpdu(front + data, k % MAX_FRAGMENTS, false, 0)
    else Mpdu(front + data[..Free(s, k)], k % MAX_FRAGMENTS, true, Min(|data| - Free(s, k), s.threshold))
  }

  function Fragments(s: Setup, data: Bytes, k: nat): (r: seq<Mpdu>)
    requires Sufficient(s)
    ensures |r| >= 1
    decreases |data|
  {
    if |data| <= Free(s, k) then [Cut(s, data, k)] else [Cut(s, data, k)] + Fragments(s, data[Free(s, k)..], k + 1)
  }

  // The MSDU with its LLC header.
  function Msdu(s: Setup, data: Bytes): Bytes {
    s.llc + data
  }

  // What every MPDU carries besides the 802.11 header and the CRC, when it is full.
  function Share(s: Setup): (n: nat)
    requires Sufficient(s)
    ensures n >= 1
  {
    s.threshold - LENGTH_CRC - |s.header|
  }

  // What an MPDU carries after an 802.11 header of `h` octets.
  function Body(m: Mpdu, h: nat): Bytes {
    if h <= |m.octets| then m.octets[h..] else []
  }

  function Bodies(ms: seq<Mpdu>, h: nat): Bytes {
    if ms == [] then [] else Body(ms[0], h) + Bodies(ms[1..], h)
  }

  // ---------- the fragments ----------

  lemma FragmentsUnfold(s: Setup, data: Bytes, k: nat)
    requires Sufficient(s)
    ensures |data| <= Free(s, k) ==> Fragments(s, data, k) == [Cut(s, data, k)]
    ensures |data| > Free(s, k) ==> Fragments(s, data, k) == [Cut(s, data, k)] + Fragments(s, data[Free(s, k)..], k + 1)
  {
  }

  lemma Shift(a: seq<Mpdu>, m: Mpdu, b: seq<Mpdu>)
    ensures a + ([m] + b) == a + [m] + b
  {
  }

  // What round `k` takes off the data.
  function Taken(s: Setup, data: Bytes, k: nat): Bytes
    requires Sufficient(s)
  {
    if |data| <= Free(s, k) then data else data[..Free(s, k)]
  }

  lemma CutBody(s: Setup, data: Bytes, k: nat)
    requires Sufficient(s)
    ensures Body(Cut(s, data, k), |s.header|) == Llc(s, k) + Taken(s, data, k)
  {
    var front := s.header + Llc(s, k);
    var m := Cut(s, data, k);
    assert m.octets == front + Taken(s, data, k);
    assert m.octets == s.header + (Llc(s, k) + Taken(s, data, k));
  }

  lemma BodiesCons(m: Mpdu, ms: seq<Mpdu>, h: nat)
    ensures Bodies([m] + ms, h) == Body(m, h) + Bodies(ms, h)
  {
    assert ([m] + ms)[1..] == ms;
  }

  lemma BodiesOne(m: Mpdu, h: nat)
    ensures Bodies([m], h) == Body(m, h)
  {
    BodiesCons(m, [], h);
    assert [m] + [] == [m];
  }

  // The rest of the loop joined to what round `k` takes off.
  lemma JoinRest(s: Setup, data: Bytes, k: nat)
    requires Sufficient(s) && |data| > Free(s, k)
    ensures Llc(s, k) + Taken(s, data, k) + data[Free(s, k)..] == Llc(s, k) + data
  {
    assert data == Taken(s, data, k) + data[Free(s, k)..];
  }

  lemma {:induction false} FragmentsJoin(s: Setup, data: Bytes, k: nat)
    requires Sufficient(s)
    ensures Bodies(Fragments(s, data, k), |s.header|) == Llc(s, k) + data
    decreases |data|
  {
    CutBody(s, data, k);
    FragmentsUnfold(s, data, k);
    if |data| <= Free(s, k) {
      BodiesOne(Cut(s, data, k), |s.header|);
      hide Cut, Body, Bodies, Fragments, Llc;
    } else {
      JoinRest(s, data, k);
      hide Cut, Body, Bodies, Fragments, Llc, Taken;
      FragmentsJoin(s, data[Free(s, k)..], k + 1);
      LaterLlc(s, k);
      BodiesCons(Cut(s, data, k), Fragments(s, data[Free(s, k)..], k + 1), |s.header|);
      NoFront(data[Free(s, k)..]);
    }
  }

  lemma LaterLlc(s: Setup, k: nat)
    ensures Llc(s, k + 1) == []
  {
  }

  lemma NoFront(data: Bytes)
    ensures [] + data == data
  {
  }

  lemma {:induction false} FragmentAt(s: Setup, data: Bytes, k: nat, i: nat)
    requires Sufficient(s) && i < |Fragments(s, data, k)|
    ensures var ms := Fragments(s, data, k); var m := ms[i];
            && m.frag == (k + i) % MAX_FRAGMENTS
            && (m.moreFrag <==> i + 1 < |ms|)
            && |s.header| <= |m.octets| && m.octets[..|s.header|] == s.header
            && |m.octets| + LENGTH_CRC <= s.threshold
            && (m.moreFrag ==> |m.octets| + LENGTH_CRC == s.threshold) && (!m.moreFrag ==> m.next == 0)
    decreases |data|
  {
    if |data| > Free(s, k) && i > 0 {
      FragmentAt(s, data[Free(s, k)..], k + 1, i - 1);
    }
  }

  lemma {:induction false} FragmentCountFrom(s: Setup, data: Bytes, k: nat)
    requires Sufficient(s)
    ensures var n := |data| + (if k == 0 then |s.llc| else 0);
            |Fragments(s, data, k)| == if n == 0 then 1 else CeilDiv(n, Share(s))
    decreases |data|
  {
    var n := |data| + (if k == 0 then |s.llc| else 0);
    if |data| > Free(s, k) {
      FragmentCountFrom(s, data[Free(s, k)..], k + 1);
      CeilDivStep(n, Share(s));
    } else if n > 0 {
      CeilDivSmall(n, Share(s));
    }
  }

  /** Cutting an MSDU of any length: the bodies of the MPDUs joined in order are the LLC header and the payload; MoreFrag
      is clear on the last MPDU only; every other MPDU is exactly FragmentThreshold octets long with its CRC and carries
      the same share of the MSDU; the fragment numbers count up from 0; and there is one MPDU for each started share. */
  lemma FragmentationSound(s: Setup, data: Bytes, i: nat)
    requires Sufficient(s) && i < |Fragments(s, data, 0)|
    ensures var ms := Fragments(s, data, 0); var m := ms[i];
            && Bodies(ms, |s.header|) == Msdu(s, data)
            && |ms| == (if Msdu(s, data) == [] then 1 else CeilDiv(|Msdu(s, data)|, Share(s)))
            && (m.moreFrag <==> i + 1 < |ms|)
            && m.frag == i % MAX_FRAGMENTS
            && (m.moreFrag ==> |m.octets| + LENGTH_CRC == s.threshold && |Body(m, |s.header|)| == Share(s))
            && (!m.moreFrag ==> |m.octets| + LENGTH_CRC <= s.threshold && m.next == 0)
            && |m.octets| >= |s.header| && m.octets[..|s.header|] == s.header
  {
    hide Fragments, Bodies, CeilDiv;
    FragmentsJoin(s, data, 0);
    FragmentAt(s, data, 0, i);
    FragmentCountFrom(s, data, 0);
  }

  lemma CutNext(s: Setup, data: Bytes, k: nat)
    requires Sufficient(s) && |data| > Free(s, k)
    ensures var rest := data[Free(s, k)..];
            && Cut(s, data, k).next == Min(|rest|, s.threshold)
            && |Cut(s, rest, k + 1).octets| == |s.header| + Min(|rest|, Share(s))
            && Fragments(s, rest, k + 1)[0] == Cut(s, rest, k + 1)
  {
  }

  // The fragment that follows fragment `i`, and what its duration field announces.
  lemma {:induction false} NextAt(s: Setup, data: Bytes, k: nat, i: nat)
    requires Sufficient(s) && i + 1 < |Fragments(s, data, k)|
    ensures var ms := Fragments(s, data, k);
            var rest := |Bodies(ms[i + 1..], |s.header|)|;
            ms[i].next == Min(rest, s.threshold) && |ms[i + 1].octets| == |s.header| + Min(rest, Share(s))
    decreases |data|
  {
    var ms := Fragments(s, data, k);
    var rest := data[Free(s, k)..];
    FragmentsUnfold(s, data, k);
    CutNext(s, data, k);
    hide Fragments, Cut, Bodies;
    assert ms[1..] == Fragments(s, rest, k + 1);
    if i == 0 {
      FragmentsJoin(s, rest, k + 1);
    } else {
      NextAt(s, rest, k + 1, i - 1);
      assert ms[i + 1..] == ms[1..][i..];
    }
  }

  /** The duration field of a fragment makes room for what remains of the payload, at most a threshold: for the whole next MPDU if and
      only if at least a threshold remains; otherwise it leaves out the header and CRC of that MPDU. */
  lemma DurationCoversNext(s: Setup, data: Bytes, i: nat)
    requires Sufficient(s) && i + 1 < |Fragments(s, data, 0)|
    ensures var ms := Fragments(s, data, 0);
            var remaining := |Bodies(ms[i + 1..], |s.header|)|;
            && ms[i].next == (if remaining < s.threshold then remaining else s.threshold)
            && (ms[i].next >= |ms[i + 1].octets| + LENGTH_CRC <==> remaining >= s.threshold)
  {
    NextAt(s, data, 0, i);
  }

  // ---------- the receiver ----------

  /** Reassembly by section 9.5 of IEEE 802.11-1999: the MSDU is complete when fragments numbered from `expected` on have
      arrived in order up to one without MoreFrag; `got` is what arrived before. */
  function Reassemble(ms: seq<Mpdu>, h: nat, expected: nat, got: Bytes): Option<Bytes>
    decreases |ms|
  {
    if ms == [] || ms[0].frag != expected || |ms[0].octets| < h then None
    else
      var all := got + ms[0].octets[h..];
      if !ms[0].moreFrag then (if |ms| == 1 then Some(all) else None)
      else Reassemble(ms[1..], h, expected + 1, all)
  }

  lemma ReassembleCons(m: Mpdu, ms: seq<Mpdu>, h: nat, got: Bytes)
    requires h <= |m.octets| && m.moreFrag && ms != []
    ensures Reassemble([m] + ms, h, m.frag, got) == Reassemble(ms, h, m.frag + 1, got + Body(m, h))
  {
    assert ([m] + ms)[1..] == ms;
  }

  lemma CutFacts(s: Setup, data: Bytes, k: nat)
    requires Sufficient(s)
    ensures var m := Cut(s, data, k);
            m.frag == k % MAX_FRAGMENTS && (m.moreFrag <==> |data| > Free(s, k)) && |s.header| <= |m.octets|
  {
  }

  lemma {:induction false} ReassembleFrom(s: Setup, data: Bytes, k: nat, got: Bytes)
    requires Sufficient(s) && k < MAX_FRAGMENTS
    ensures Reassemble(Fragments(s, data, k), |s.header|, k, got)
            == if k + |Fragments(s, data, k)| <= MAX_FRAGMENTS
               then Some(got + Bodies(Fragments(s, data, k), |s.header|)) else None
    decreases |data|
  {
    var m, h := Cut(s, data, k), |s.header|;
    CutFacts(s, data, k);
    if |data| <= Free(s, k) {
      BodiesOne(m, h);
      hide Cut, Bodies;
    } else {
      var rest := data[Free(s, k)..];
      var ms := Fragments(s, rest, k + 1);
      CutFacts(s, rest, k + 1);
      assert ms[0] == Cut(s, rest, k + 1);
      ReassembleCons(m, ms, h, got);
      BodiesCons(m, ms, h);
      hide Cut, Bodies;
      if k + 1 < MAX_FRAGMENTS {
        ReassembleFrom(s, rest, k + 1, got + Body(m, h));
        assert got + Body(m, h) + Bodies(ms, h) == got + (Body(m, h) + Bodies(ms, h));
      } else {
        assert ms[0].frag != k + 1;
      }
    }
  }

  /** The receiver puts the MSDU together if and only if it was cut into at most 16 MPDUs. */
  lemma RoundTrip(s: Setup, data: Bytes)
    requires Sufficient(s)
    ensures var ms := Fragments(s, data, 0);
            Reassemble(ms, |s.header|, 0, []) == if |ms| <= MAX_FRAGMENTS then Some(Msdu(s, data)) else None
  {
    ReassembleFrom(s, data, 0, []);
    FragmentsJoin(s, data, 0);
    assert [] + Msdu(s, data) == Msdu(s, data);
  }

  /** With the smallest threshold that can be configured, 16 MPDUs are enough for the largest MSDU. */
  lemma AtMostSixteen(s: Setup, data: Bytes)
    requires Sufficient(s) && s.threshold >= MIN_FRAG_THRESHOLD && |s.header| <= 36 && |Msdu(s, data)| <= 2346
    ensures |Fragments(s, data, 0)| <= MAX_FRAGMENTS
  {
    FragmentCountFrom(s, data, 0);
    if |Msdu(s, data)| > 0 {
      AtMost(|Msdu(s, data)|, Share(s), MAX_FRAGMENTS);
    }
  }

  lemma MulMinus(p: nat, q: nat, n: nat)
    requires q >= n
    ensures p * (q - n) == p * q - p * n
  {
  }

  lemma AtMost(x: nat, p: nat, n: nat)
    requires p >= 1 && x <= p * n
    ensures CeilDiv(x, p) <= n
  {
    var q, r := x / p, x % p;
    assert x == p * q + r;
    if q > n {
      MulAtLeast(p, q - n);
      MulMinus(p, q, n);
    } else if q == n {
      assert r == 0;
    }
  }

  // ---------- the estimate ----------

  // NumberOfFrag for an Ethernet frame of `total` octets.
  function Estimate(total: nat, threshold: nat): nat
    requires total >= LENGTH_802_3 && threshold > LENGTH_802_11 + LENGTH_CRC
  {
    var allowFragSize := threshold - LENGTH_802_11 - LENGTH_CRC;
    var size := total - LENGTH_802_3 + LENGTH_802_1_H;
    if size >= allowFragSize then size / allowFragSize + 1 else 1
  }

  /** For a frame with a plain header and an LLC header, the estimate is the number of MPDUs, or one more exactly when
      the MSDU is a multiple of the share of an MPDU. */
  lemma EstimateExact(s: Setup, data: Bytes)
    requires Sufficient(s) && |s.header| == LENGTH_802_11 && |s.llc| == LENGTH_802_1_H
    ensures Estimate(LENGTH_802_3 + |data|, s.threshold)
            == |Fragments(s, data, 0)| + if |Msdu(s, data)| % Share(s) == 0 then 1 else 0
  {
    FragmentCountFrom(s, data, 0);
    var n, p := |Msdu(s, data)|, Share(s);
    if n < p {
      DivModUnique(n, 0, n, p);
    }
  }

  // ---------- the loop ----------

  class TxBlk {
    const headerBuf: Bytes          // the 802.11 header and the LLC header
    const llcEncap: bool
    const source: array<Byte>
    var srcBufData: nat
    var srcBufLen: nat
    var mpduHeaderLen: nat
    var totalFragNum: nat
    var sent: seq<Mpdu>              // the MPDUs written to the hardware

    // The block is ready for round `k`.
    ghost predicate Ready(s: Setup, k: nat)
      reads this
    {
      && Sufficient(s) && headerBuf == s.header + s.llc && llcEncap == (s.llc != [])
      && srcBufData <= source.Length
      && mpduHeaderLen == |s.header| + if k == 0 then |s.llc| else 0
    }

    constructor (header: Bytes, llc: Bytes, source: array<Byte>)
      requires |llc| == 0 || |llc| == LENGTH_802_1_H
      ensures this.source == source && headerBuf == header + llc && llcEncap == (llc != [])
      ensures srcBufData == 0 && srcBufLen == source.Length && mpduHeaderLen == |header| + |llc| && sent == []
    {
      headerBuf, llcEncap, this.source := header + llc, llc != [], source;
      srcBufData, srcBufLen, mpduHeaderLen, totalFragNum := 0, source.Length, |header| + |llc|, 0xff;
      sent := [];
    }

    /** One round of the loop: cuts and sends a fragment, and tells whether another one is needed. */
    method Round(threshold: nat, fragNum: nat, ghost s: Setup) returns (more: bool)
      requires Ready(s, fragNum) && s.threshold == threshold
      modifies this
      ensures var left := old(source[srcBufData..]);
              && sent == old(sent) + [Cut(s, left, fragNum)]
              && (more <==> |left| > Free(s, fragNum))
              && (more ==> Ready(s, fragNum + 1) && source[srcBufData..] == left[Free(s, fragNum)..])
              && (!more ==> totalFragNum == fragNum)
    {
      ghost var left := source[srcBufData..];
      var remaining := source.Length - srcBufData;
      var free := threshold - LENGTH_CRC - mpduHeaderLen;
      var next := 0;
      more := remaining > free;
      if !more {
        srcBufLen := remaining;
        totalFragNum := fragNum;
      } else {
        srcBufLen := free;
        next := Min(remaining - srcBufLen, threshold);
      }
      sent := sent + [Mpdu(headerBuf[..mpduHeaderLen] + source[srcBufData..srcBufData + srcBufLen],
                           fragNum % MAX_FRAGMENTS, more, next)];
      assert source[srcBufData..srcBufData + srcBufLen] == left[..srcBufLen] == Taken(s, left, fragNum);
      assert headerBuf[..mpduHeaderLen] == s.header + Llc(s, fragNum);
      if fragNum == 0 && llcEncap {
        mpduHeaderLen := mpduHeaderLen - LENGTH_802_1_H;
      }
      srcBufData := srcBufData + srcBufLen;
      more := srcBufData < source.Length;
    }

    /** The loop of AP_Fragment_Frame_Tx.  The last fragment is announced to the hardware by its number. */
    method Transmit(threshold: nat, ghost s: Setup)
      requires Ready(s, 0) && s.threshold == threshold
      modifies this
      ensures sent == old(sent) + Fragments(s, old(source[srcBufData..]), 0)
      ensures totalFragNum == |Fragments(s, old(source[srcBufData..]), 0)| - 1
    {
      ghost var data := source[srcBufData..];
      hide Cut, Free, Llc;
      var fragNum := 0;
      var more := true;
      ghost var done: seq<Mpdu> := [];
      while more
        invariant more ==> Ready(s, fragNum) && Fragments(s, data, 0) == done + Fragments(s, source[srcBufData..], fragNum)
        invariant !more ==> Fragments(s, data, 0) == done && totalFragNum == fragNum - 1
        invariant sent == old(sent) + done && |done| == fragNum
        decreases if more then source.Length - srcBufData + 1 else 0
      {
        ghost var left := source[srcBufData..];
        FragmentsUnfold(s, left, fragNum);
        hide Fragments;
        more := Round(threshold, fragNum, s);
        if more {
          Shift(done, Cut(s, left, fragNum), Fragments(s, source[srcBufData..], fragNum + 1));
        }
        done := done + [Cut(s, left, fragNum)];
        fragNum := fragNum + 1;
      }
    }
  }
}
