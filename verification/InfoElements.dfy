/** Information elements of management frames: an identifier, a length and a body. */
module InfoElements {
  import opened Bytes

  const IE_SSID: Byte := 0
  const IE_SUPP_RATES: Byte := 1
  const IE_HT_CAP: Byte := 45
  const IE_WPA2: Byte := 48
  const IE_EXT_SUPP_RATES: Byte := 50
  const IE_HT_CAP2: Byte := 52
  const IE_ADD_HT2: Byte := 53
  const IE_ADD_HT: Byte := 61
  const IE_SECONDARY_CH_OFFSET: Byte := 62
  const IE_OVERLAPBSS_SCAN_PARM: Byte := 74
  const IE_EXT_CAPABILITY: Byte := 127
  const IE_VENDOR_SPECIFIC: Byte := 221
  const MAX_LEN_OF_SUPPORTED_RATES := 12
  const SIZE_HT_CAP_IE := 26
  const LENGTH_802_11 := 24
  const BROADCOM_HTC: Bytes := [0x00, 0x90, 0x4c, 0x33]

  datatype Element = Element(eid: Byte, body: Bytes)

  predicate Sized(e: Element) {
    |e.body| < 256
  }

  predicate AllSized(es: seq<Element>) {
    forall e :: e in es ==> Sized(e)
  }

  function Octets(e: Element): (b: Bytes)
    requires Sized(e)
    ensures |b| == 2 + |e.body|
  {
    [e.eid, |e.body| as Byte] + e.body
  }

  function Print(es: seq<Element>): Bytes
    requires AllSized(es)
  {
    if es == [] then [] else Octets(es[0]) + Print(es[1..])
  }

  lemma SliceSlice(b: Bytes, at: nat, end: nat, i: nat, j: nat)
    requires at <= end <= |b| && i <= j <= end - at
    ensures b[at..end][i..j] == b[at + i..at + j]
  {
    var l, r := b[at..end][i..j], b[at + i..at + j];
    assert |l| == |r|;
    assert forall k :: 0 <= k < |l| ==> l[k] == b[at + i + k] == r[k];
  }

  // The element at the start of what is left of the message.
  lemma ElementAt(buf: Bytes, at: nat, end: nat, e: Element, tail: Bytes)
    requires Sized(e) && at <= end <= |buf| && buf[at..end] == Octets(e) + tail
    ensures var next := at + 2 + |e.body|;
            && next <= end && buf[at] == e.eid && buf[at + 1] == |e.body| as Byte
            && buf[at + 2..next] == e.body && buf[next..end] == tail
  {
    var next, m := at + 2 + |e.body|, buf[at..end];
    assert |m| == 2 + |e.body| + |tail|;
    assert buf[at] == m[0] == e.eid;
    assert buf[at + 1] == m[1] == |e.body| as Byte;
    assert m[2..2 + |e.body|] == e.body;
    SliceSlice(buf, at, end, 2, 2 + |e.body|);
    assert m[2 + |e.body|..|m|] == tail;
    assert next == at + (2 + |e.body|) && end == at + |m|;
    SliceSlice(buf, at, end, 2 + |e.body|, |m|);
  }
}
