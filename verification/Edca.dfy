/** The EDCA parameter set of the WMM element: packed into the beacon (ap/ap_connect.c) and the association response
    (ap/ap_assoc.c), unpacked by the AP client (ap/ap_apcli.c).  Layout of section 8.4.2.31 of IEEE 802.11-2012. */
module Edca {
  import opened Bytes
  import opened InfoElements

  const NUM_OF_AC := 4
  const WME_PARM_ELEM: Bytes := [0x00, 0x50, 0xf2, 0x02, 0x01, 0x01]

  datatype Ac = Ac(acm: bool, aifsn: nat, cwmin: nat, cwmax: nat, txop: nat)

  datatype Parameters = Parameters(updateCount: nat, acs: seq<Ac>)

  predicate FourAcs(e: Parameters) {
    |e.acs| == NUM_OF_AC
  }

  // The four octets of the access category with index `i`.
  function PackAc(i: nat, ac: Ac): (b: Bytes)
    requires i < NUM_OF_AC
    ensures |b| == 4
  {
    [(i * 32 + (if ac.acm then 16 else 0) + ac.aifsn % 16) as Byte,
     (ac.cwmax * 16 % 256 + ac.cwmin % 16) as Byte,
     (ac.txop % 256) as Byte,
     (ac.txop / 256 % 256) as Byte]
  }

  function PackFrom(e: Parameters, i: nat): (b: Bytes)
    requires FourAcs(e) && i <= NUM_OF_AC
    ensures |b| == 4 * (NUM_OF_AC - i)
    decreases NUM_OF_AC - i
  {
    if i == NUM_OF_AC then [] else PackAc(i, e.acs[i]) + PackFrom(e, i + 1)
  }

  /** The information field of the element. */
  function Pack(e: Parameters): (b: Bytes)
    requires FourAcs(e)
    ensures |b| == 24
  {
    WME_PARM_ELEM + [(e.updateCount % 16) as Byte, 0] + PackFrom(e, 0)
  }

  // What four octets say, and about which access category.
  function Aci(b: Bytes): (aci: nat)
    requires |b| == 4
    ensures aci < NUM_OF_AC
  {
    b[0] as nat / 32 % 4
  }

  function UnpackAc(b: Bytes): Ac
    requires |b| == 4
  {
    Ac(b[0] as nat / 16 % 2 == 1, b[0] as nat % 16, b[1] as nat % 16, b[1] as nat / 16, b[2] as nat + 256 * b[3] as nat)
  }

  // The loop over the records from `i` on; a record is stored by its own index.
  function UnpackFrom(b: Bytes, i: nat, acs: seq<Ac>): (r: seq<Ac>)
    requires |b| == 24 && i <= NUM_OF_AC && |acs| == NUM_OF_AC
    ensures |r| == NUM_OF_AC
    decreases NUM_OF_AC - i
  {
    if i == NUM_OF_AC then acs
    else
      var r := b[8 + 4 * i..12 + 4 * i];
      UnpackFrom(b, i + 1, acs[Aci(r) := UnpackAc(r)])
  }

  const NoAc := Ac(false, 0, 0, 0, 0)

  predicate IsWme(body: Bytes) {
    |body| == 24 && body[..6] == WME_PARM_ELEM
  }

  function Unpack(body: Bytes): (e: Parameters)
    requires IsWme(body)
    ensures FourAcs(e)
  {
    Parameters(body[6] as nat % 16, UnpackFrom(body, 0, [NoAc, NoAc, NoAc, NoAc]))
  }

  // The part of a field that fits in its bits.
  function Kept(ac: Ac): Ac {
    Ac(ac.acm, ac.aifsn % 16, ac.cwmin % 16, ac.cwmax % 16, ac.txop % 65536)
  }

  function KeptAll(e: Parameters): Parameters
    requires FourAcs(e)
  {
    Parameters(e.updateCount % 16, [Kept(e.acs[0]), Kept(e.acs[1]), Kept(e.acs[2]), Kept(e.acs[3])])
  }

  // Every field fits in its bits.
  predicate InRange(e: Parameters) {
    e.updateCount < 16
    && forall i :: 0 <= i < |e.acs| ==> e.acs[i].aifsn < 16 && e.acs[i].cwmin < 16 && e.acs[i].cwmax < 16 && e.acs[i].txop < 65536
  }

  lemma Window(cwmax: nat)
    ensures cwmax * 16 % 256 == 16 * (cwmax % 16)
  {
    assert cwmax * 16 == 256 * (cwmax / 16) + 16 * (cwmax % 16);
  }

  lemma AcRoundTrip(i: nat, ac: Ac)
    requires i < NUM_OF_AC
    ensures Aci(PackAc(i, ac)) == i && UnpackAc(PackAc(i, ac)) == Kept(ac)
  {
    Window(ac.cwmax);
    var first := i * 32 + (if ac.acm then 16 else 0) + ac.aifsn % 16;
    assert first / 32 == i && first / 16 % 2 == (if ac.acm then 1 else 0) && first % 16 == ac.aifsn % 16;
    var second := 16 * (ac.cwmax % 16) + ac.cwmin % 16;
    assert second % 16 == ac.cwmin % 16 && second / 16 == ac.cwmax % 16;
    assert Split16(ac.txop) == [PackAc(i, ac)[3], PackAc(i, ac)[2]];
    JoinSplit(ac.txop);
  }

  lemma RecordAt(e: Parameters, i: nat)
    requires FourAcs(e) && i < NUM_OF_AC
    ensures Pack(e)[8 + 4 * i..12 + 4 * i] == PackAc(i, e.acs[i])
  {
    hide PackAc;
    assert PackFrom(e, 0) == PackAc(0, e.acs[0]) + (PackAc(1, e.acs[1]) + (PackAc(2, e.acs[2]) + PackFrom(e, 3)));
    assert PackFrom(e, 3) == PackAc(3, e.acs[3]) + [];
  }

  /** Packing and unpacking gives back every field of every access category by its index, cut to the bits the element
      has for it, and the update count modulo 16. */
  lemma RoundTrip(e: Parameters)
    requires FourAcs(e)
    ensures IsWme(Pack(e)) && Unpack(Pack(e)) == KeptAll(e)
  {
    hide PackAc, UnpackAc, Aci, PackFrom, Kept;
    var b := Pack(e);
    RecordAt(e, 0);
    RecordAt(e, 1);
    RecordAt(e, 2);
    RecordAt(e, 3);
    AcRoundTrip(0, e.acs[0]);
    AcRoundTrip(1, e.acs[1]);
    AcRoundTrip(2, e.acs[2]);
    AcRoundTrip(3, e.acs[3]);
    var a0 := [NoAc, NoAc, NoAc, NoAc];
    var a1 := a0[0 := Kept(e.acs[0])];
    var a2 := a1[1 := Kept(e.acs[1])];
    var a3 := a2[2 := Kept(e.acs[2])];
    assert UnpackFrom(b, 3, a3) == UnpackFrom(b, 4, a3[3 := Kept(e.acs[3])]);
    assert UnpackFrom(b, 2, a2) == UnpackFrom(b, 3, a3);
    assert UnpackFrom(b, 1, a1) == UnpackFrom(b, 2, a2);
    assert UnpackFrom(b, 0, a0) == UnpackFrom(b, 1, a1);
    assert b[..6] == WME_PARM_ELEM;
  }

  /** The element, octet by octet: the OUI and the version, the update count, and for each access category an octet with AIFSN,
      ACM and ACI from the low bits on, one with ECWmin in the low half, and TXOP with its low octet first. */
  lemma Layout(e: Parameters, i: nat)
    requires FourAcs(e) && i < NUM_OF_AC
    ensures var b, ac := Pack(e), e.acs[i];
            && b[..6] == [0x00, 0x50, 0xf2, 0x02, 0x01, 0x01] && b[6] as nat == e.updateCount % 16 && b[7] == 0
            && b[8 + 4 * i] as nat == ac.aifsn % 16 + 16 * (if ac.acm then 1 else 0) + 32 * i
            && b[9 + 4 * i] as nat == ac.cwmin % 16 + 16 * (ac.cwmax % 16)
            && b[10 + 4 * i] as nat + 256 * b[11 + 4 * i] as nat == ac.txop % 65536
  {
    hide PackAc, PackFrom;
    RecordAt(e, i);
    PackAcOctets(i, e.acs[i]);
    var b := Pack(e);
    var r := b[8 + 4 * i..12 + 4 * i];
    assert r[0] == b[8 + 4 * i] && r[1] == b[9 + 4 * i] && r[2] == b[10 + 4 * i] && r[3] == b[11 + 4 * i];
    assert b[..6] == WME_PARM_ELEM;
  }

  lemma PackAcOctets(i: nat, ac: Ac)
    requires i < NUM_OF_AC
    ensures var p := PackAc(i, ac);
            && p[0] as nat == ac.aifsn % 16 + 16 * (if ac.acm then 1 else 0) + 32 * i
            && p[1] as nat == ac.cwmin % 16 + 16 * (ac.cwmax % 16)
            && p[2] as nat + 256 * p[3] as nat == ac.txop % 65536
  {
    Window(ac.cwmax);
    TxopOctets(ac.txop);
  }

  lemma TxopOctets(txop: nat)
    ensures txop % 256 + 256 * (txop / 256 % 256) == txop % 65536
  {
    hide Split16, Join16;
    JoinSplit(txop);
    SplitParts(txop);
  }

  lemma KeptIff(ac: Ac)
    ensures Kept(ac) == ac <==> ac.aifsn < 16 && ac.cwmin < 16 && ac.cwmax < 16 && ac.txop < 65536
  {
  }

  /** The parameters come back unchanged if and only if every field fits in its bits. */
  lemma LosslessIff(e: Parameters)
    requires FourAcs(e)
    ensures Unpack(Pack(e)) == e <==> InRange(e)
  {
    hide Pack, Unpack;
    RoundTrip(e);
    KeptIff(e.acs[0]);
    KeptIff(e.acs[1]);
    KeptIff(e.acs[2]);
    KeptIff(e.acs[3]);
    hide Kept;
    assert e.acs == [e.acs[0], e.acs[1], e.acs[2], e.acs[3]];
    assert KeptAll(e) == e <==> e.updateCount % 16 == e.updateCount && forall i :: 0 <= i < NUM_OF_AC ==> Kept(e.acs[i]) == e.acs[i];
  }

  /** The loop that fills WmeParmIe. */
  method Fill(e: Parameters) returns (ie: array<Byte>)
    requires FourAcs(e)
    ensures fresh(ie) && ie[..] == [IE_VENDOR_SPECIFIC, 24] + Pack(e)
  {
    hide Pack, PackAc, PackFrom;
    var head := [IE_VENDOR_SPECIFIC, 24] + WME_PARM_ELEM + [(e.updateCount % 16) as Byte, 0];
    ie := new Byte[26](j requires 0 <= j < 26 => if j < 10 then head[j] else 0);
    for i := 0 to NUM_OF_AC
      invariant ie[..10] == head
      invariant forall k :: 0 <= k < i ==> ie[10 + 4 * k..14 + 4 * k] == PackAc(k, e.acs[k])
    {
      var ac := PackAc(i, e.acs[i]);
      ie[10 + 4 * i], ie[11 + 4 * i], ie[12 + 4 * i], ie[13 + 4 * i] := ac[0], ac[1], ac[2], ac[3];
      assert forall k :: 0 <= k < i ==> 14 + 4 * k <= 10 + 4 * i;
    }
    FilledIsPacked(e, ie[..]);
  }

  lemma FilledIsPacked(e: Parameters, ie: Bytes)
    requires FourAcs(e) && |ie| == 26
    requires ie[..10] == [IE_VENDOR_SPECIFIC, 24] + WME_PARM_ELEM + [(e.updateCount % 16) as Byte, 0]
    requires forall k :: 0 <= k < NUM_OF_AC ==> ie[10 + 4 * k..14 + 4 * k] == PackAc(k, e.acs[k])
    ensures ie == [IE_VENDOR_SPECIFIC, 24] + Pack(e)
  {
    hide PackAc;
    assert ie[10..14] == PackAc(0, e.acs[0]) && ie[14..18] == PackAc(1, e.acs[1]);
    assert ie[18..22] == PackAc(2, e.acs[2]) && ie[22..26] == PackAc(3, e.acs[3]);
    assert PackFrom(e, 3) == ie[22..26] + PackFrom(e, 4) == ie[22..];
    assert PackFrom(e, 2) == ie[18..22] + ie[22..] == ie[18..];
    assert PackFrom(e, 1) == ie[14..18] + ie[18..] == ie[14..];
    assert PackFrom(e, 0) == ie[10..14] + ie[14..] == ie[10..];
    assert ie == ie[..10] + ie[10..];
  }
}
