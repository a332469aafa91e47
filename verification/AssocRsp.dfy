/** The association response the access point prints (ap/ap_assoc.c) and the AP client parses (ap/ap_apcli.c). */
module AssocRsp {
  import opened Bytes
  import opened InfoElements
  import opened Wrappers
  import Edca

  const SIZE_ADD_HT_INFO_IE := 22
  const NO_CH_OFFSET := 0xff

  // ---------- what the client learns ----------

  datatype Parsed = Parsed(
    capability: Bytes,
    status: Bytes,
    aid: nat,
    supRates: Bytes,
    extRates: Bytes,
    htCapability: Option<Bytes>,
    addHtInfo: Option<Bytes>,
    newExtChannelOffset: nat,
    edca: Option<Edca.Parameters>)

  datatype Kind = ExtRates | HtCap | AddHt | ChOffset | Wme | Unrecognised

  // What the switch over the element identifier makes of an element.
  function KindOf(e: Element): Kind {
    if e.eid == IE_EXT_SUPP_RATES && |e.body| <= MAX_LEN_OF_SUPPORTED_RATES then ExtRates
    else if (e.eid == IE_HT_CAP || e.eid == IE_HT_CAP2) && |e.body| >= SIZE_HT_CAP_IE then HtCap
    else if (e.eid == IE_ADD_HT || e.eid == IE_ADD_HT2) && |e.body| >= SIZE_ADD_HT_INFO_IE then AddHt
    else if e.eid == IE_SECONDARY_CH_OFFSET && |e.body| == 1 then ChOffset
    else if e.eid == IE_VENDOR_SPECIFIC && Edca.IsWme(e.body) then Wme
    else Unrecognised
  }

  function Recognise(p: Parsed, e: Element): Parsed {
    match KindOf(e)
    case ExtRates => p.(extRates := e.body)
    case HtCap => p.(htCapability := Some(e.body[..SIZE_HT_CAP_IE]))
    case AddHt => p.(addHtInfo := Some(e.body[..SIZE_ADD_HT_INFO_IE]))
    case ChOffset => p.(newExtChannelOffset := e.body[0] as nat)
    case Wme => p.(edca := Some(Edca.Unpack(e.body)))
    case Unrecognised => p
  }

  function Fold(p: Parsed, es: seq<Element>): Parsed
    decreases es
  {
    if es == [] then p else Fold(Recognise(p, es[0]), es[1..])
  }

  // The loop over the elements from `at` on in a message that ends at `end`.
  function Walk(buf: Bytes, at: nat, end: nat, p: Parsed): Parsed
    requires end <= |buf|
    decreases end - at
  {
    if at + 2 > end || at + 2 + buf[at + 1] as nat > end then p
    else
      var next := at + 2 + buf[at + 1] as nat;
      Walk(buf, next, end, Recognise(p, Element(buf[at], buf[at + 2..next])))
  }

  // The fixed part of the message and the longest supported rates lie inside the message buffer.
  predicate Received(buf: Bytes, len: nat) {
    LENGTH_802_11 + 8 + MAX_LEN_OF_SUPPORTED_RATES <= |buf| && len <= |buf|
  }

  function Fixed(buf: Bytes): Parsed
    requires |buf| >= LENGTH_802_11 + 4
  {
    Parsed(buf[24..26], buf[26..28], 0, [], [], None, None, NO_CH_OFFSET, None)
  }

  // The fields before the elements of a response that reports success.
  function Start(buf: Bytes): Parsed
    requires Received(buf, 0) && buf[31] as nat <= MAX_LEN_OF_SUPPORTED_RATES
  {
    Fixed(buf).(aid := Join16(buf[29], buf[28]) % 0x4000, supRates := buf[32..32 + buf[31] as nat])
  }

  /** ApCliPeerAssocRspSanity; None stands for the result FALSE. */
  function Parse(buf: Bytes, len: nat): Option<Parsed>
    requires Received(buf, len)
  {
    if buf[26..28] != [0, 0] then Some(Fixed(buf))
    else if buf[30] != IE_SUPP_RATES || buf[31] as nat > MAX_LEN_OF_SUPPORTED_RATES then None
    else Some(Walk(buf, 32 + buf[31] as nat, len, Start(buf)))
  }

  method ParseAssocRsp(msg: array<Byte>, len: nat) returns (r: Option<Parsed>)
    requires Received(msg[..], len)
    ensures r == Parse(msg[..], len)
  {
    var p := Parsed(msg[24..26], msg[26..28], 0, [], [], None, None, NO_CH_OFFSET, None);
    if p.status != [0, 0] {
      return Some(p);
    }
    var supRateLen := msg[31] as nat;
    if msg[30] != IE_SUPP_RATES || supRateLen > MAX_LEN_OF_SUPPORTED_RATES {
      return None;
    }
    p := p.(aid := Join16(msg[29], msg[28]) % 0x4000, supRates := msg[32..32 + supRateLen]);
    assert p == Start(msg[..]);
    var at := 32 + supRateLen;
    while at + 2 <= len && at + 2 + msg[at + 1] as nat <= len
      invariant Walk(msg[..], at, len, p) == Walk(msg[..], 32 + supRateLen, len, Start(msg[..]))
      decreases len - at
    {
      var next := at + 2 + msg[at + 1] as nat;
      p := Recognise(p, Element(msg[at], msg[at + 2..next]));
      assert msg[..][at + 2..next] == msg[at + 2..next];
      at := next;
    }
    return Some(p);
  }

  // ---------- the walk over printed elements ----------

  lemma WalkStep(buf: Bytes, at: nat, end: nat, e: Element, tail: Bytes, p: Parsed)
    requires Sized(e) && at <= end <= |buf| && buf[at..end] == Octets(e) + tail
    ensures Walk(buf, at, end, p) == Walk(buf, at + 2 + |e.body|, end, Recognise(p, e))
    ensures at + 2 + |e.body| <= end && buf[at + 2 + |e.body|..end] == tail
  {
    hide Recognise, Octets;
    ElementAt(buf, at, end, e, tail);
  }

  lemma {:induction false} WalkPrinted(buf: Bytes, at: nat, end: nat, es: seq<Element>, p: Parsed)
    requires AllSized(es) && at <= end <= |buf| && buf[at..end] == Print(es)
    ensures Walk(buf, at, end, p) == Fold(p, es)
    decreases es
  {
    hide Recognise, Octets;
    if es == [] {
      assert at == end;
    } else {
      WalkStep(buf, at, end, es[0], Print(es[1..]), p);
      WalkPrinted(buf, at + 2 + |es[0].body|, end, es[1..], Recognise(p, es[0]));
    }
  }

  // ---------- order and unknown elements do not matter ----------

  // The last element of a kind.
  function LastOf(es: seq<Element>, k: Kind): (r: Option<Element>)
    ensures r != None ==> r.value in es && KindOf(r.value) == k
    ensures r == None ==> forall e :: e in es ==> KindOf(e) != k
  {
    if es == [] then None
    else if KindOf(es[|es| - 1]) == k then Some(es[|es| - 1])
    else LastOf(es[..|es| - 1], k)
  }

  // What the last element of each kind says.
  function Summary(p: Parsed, es: seq<Element>): Parsed {
    var r, h, a, c, w := LastOf(es, ExtRates), LastOf(es, HtCap), LastOf(es, AddHt), LastOf(es, ChOffset), LastOf(es, Wme);
    p.(extRates := if r == None then p.extRates else r.value.body,
       htCapability := if h == None then p.htCapability else Some(h.value.body[..SIZE_HT_CAP_IE]),
       addHtInfo := if a == None then p.addHtInfo else Some(a.value.body[..SIZE_ADD_HT_INFO_IE]),
       newExtChannelOffset := if c == None then p.newExtChannelOffset else c.value.body[0] as nat,
       edca := if w == None then p.edca else Some(Edca.Unpack(w.value.body)))
  }

  lemma {:induction false} FoldSnoc(p: Parsed, es: seq<Element>, e: Element)
    ensures Fold(p, es + [e]) == Recognise(Fold(p, es), e)
    decreases es
  {
    hide Recognise;
    if es == [] {
      assert [] + [e] == [e];
    } else {
      assert (es + [e])[1..] == es[1..] + [e];
      FoldSnoc(Recognise(p, es[0]), es[1..], e);
    }
  }

  lemma SummarySnoc(p: Parsed, es: seq<Element>)
    requires es != []
    ensures Summary(p, es) == Recognise(Summary(p, es[..|es| - 1]), es[|es| - 1])
  {
    hide KindOf, LastOf;
    LastSnoc(es, ExtRates);
    LastSnoc(es, HtCap);
    LastSnoc(es, AddHt);
    LastSnoc(es, ChOffset);
    LastSnoc(es, Wme);
  }

  lemma LastSnoc(es: seq<Element>, k: Kind)
    requires es != []
    ensures var e := es[|es| - 1];
            LastOf(es, k) == if KindOf(e) == k then Some(e) else LastOf(es[..|es| - 1], k)
  {
  }

  /** The parser's result is what the last recognised element of each kind says. */
  lemma {:induction false} FoldIsSummary(p: Parsed, es: seq<Element>)
    ensures Fold(p, es) == Summary(p, es)
    decreases |es|
  {
    hide Summary, Recognise;
    if es == [] {
      SummaryEmpty(p);
    } else {
      var front := es[..|es| - 1];
      FoldIsSummary(p, front);
      FoldSnoc(p, front, es[|es| - 1]);
      SummarySnoc(p, es);
      assert es == front + [es[|es| - 1]];
    }
  }

  lemma SummaryEmpty(p: Parsed)
    ensures Summary(p, []) == p
  {
  }

  // At most one element of the list is of kind `k`.
  predicate AtMostOne(es: seq<Element>, k: Kind) {
    forall i, j :: 0 <= i < j < |es| ==> KindOf(es[i]) != k || KindOf(es[j]) != k
  }

  // The two lists hold the same recognised elements, at most one of each kind.
  ghost predicate SameRecognised(es: seq<Element>, fs: seq<Element>) {
    && (forall e :: KindOf(e) != Unrecognised ==> (e in es <==> e in fs))
    && (forall k :: k != Unrecognised ==> AtMostOne(es, k) && AtMostOne(fs, k))
  }

  lemma SameLast(es: seq<Element>, fs: seq<Element>, k: Kind)
    requires SameRecognised(es, fs) && k != Unrecognised
    ensures LastOf(es, k) == LastOf(fs, k)
  {
    hide KindOf, LastOf;
    assert AtMostOne(es, k);
    var r, q := LastOf(es, k), LastOf(fs, k);
    if r != None && q != None {
      var i :| 0 <= i < |es| && es[i] == r.value;
      assert q.value in es;
      var j :| 0 <= j < |es| && es[j] == q.value;
    }
  }

  /** Inserting elements that are not recognised, and permuting those that are, changes nothing. */
  lemma OrderIrrelevant(p: Parsed, es: seq<Element>, fs: seq<Element>)
    requires SameRecognised(es, fs)
    ensures Fold(p, es) == Fold(p, fs)
  {
    hide Fold, LastOf;
    FoldIsSummary(p, es);
    FoldIsSummary(p, fs);
    SameLast(es, fs, ExtRates);
    SameLast(es, fs, HtCap);
    SameLast(es, fs, AddHt);
    SameLast(es, fs, ChOffset);
    SameLast(es, fs, Wme);
  }

  // ---------- the response ----------

  /** What goes into a response: `htCap` is present for a station that sent HT capabilities, `epigram` when the two
      vendor copies are added, `overlap` when scan parameters are, `extCap` when some extended capability is set. */
  datatype Response = Response(
    header: Bytes,
    capability: Bytes,
    status: Bytes,
    aid: nat,
    supRates: Bytes,
    extRates: Option<Bytes>,
    wmm: Option<Edca.Parameters>,
    ht: Option<Ht>,
    extCap: Option<Bytes>,
    ralinkFlags: Byte)

  datatype Ht = Ht(htCap: Bytes, addHt: Bytes, epigram: bool, overlap: Option<Bytes>)

  predicate Printable(r: Response) {
    && |r.header| == LENGTH_802_11 && |r.capability| == 2 && |r.status| == 2
    && |r.supRates| <= MAX_LEN_OF_SUPPORTED_RATES
    && (r.extRates != None ==> 1 <= |r.extRates.value| <= MAX_LEN_OF_SUPPORTED_RATES)
    && (r.wmm != None ==> Edca.FourAcs(r.wmm.value))
    && (r.ht != None ==>
          && |r.ht.value.htCap| == SIZE_HT_CAP_IE && |r.ht.value.addHt| == SIZE_ADD_HT_INFO_IE
          && (r.ht.value.overlap != None ==> |r.ht.value.overlap.value| == 14))
    && (r.extCap != None ==> |r.extCap.value| < 256)
  }

  const BROADCOM_AHTINFO: Bytes := [0x00, 0x90, 0x4c, 0x34]

  function HtElements(h: Ht): seq<Element> {
    [Element(IE_HT_CAP, h.htCap), Element(IE_ADD_HT, h.addHt)]
    + (if h.epigram
       then [Element(IE_VENDOR_SPECIFIC, BROADCOM_HTC + h.htCap), Element(IE_VENDOR_SPECIFIC, BROADCOM_AHTINFO + h.addHt)]
       else [])
    + (if h.overlap == None then [] else [Element(IE_OVERLAPBSS_SCAN_PARM, h.overlap.value)])
  }

  function RalinkElement(flags: Byte): Element {
    Element(IE_VENDOR_SPECIFIC, [0x00, 0x0c, 0x43, flags, 0, 0, 0])
  }

  /** The elements after the supported rates, in the order in which they are appended. */
  function Elements(r: Response): (es: seq<Element>)
    requires Printable(r)
    ensures AllSized(es)
  {
    (if r.extRates == None then [] else [Element(IE_EXT_SUPP_RATES, r.extRates.value)])
    + (if r.wmm == None then [] else [Element(IE_VENDOR_SPECIFIC, Edca.Pack(r.wmm.value))])
    + (if r.ht == None then [] else HtElements(r.ht.value))
    + (if r.extCap == None then [] else [Element(IE_EXT_CAPABILITY, r.extCap.value)])
    + [RalinkElement(r.ralinkFlags)]
  }

  // The two most significant bits are set, and the low octet comes first.
  function AidOctets(aid: nat): (b: Bytes)
    ensures |b| == 2
  {
    [Split16(aid % 0x4000 + 0xc000)[1], Split16(aid % 0x4000 + 0xc000)[0]]
  }

  function FixedFields(r: Response): Bytes
    requires Printable(r)
  {
    r.header + r.capability + r.status + AidOctets(r.aid) + [IE_SUPP_RATES, |r.supRates| as Byte] + r.supRates
  }

  /** The frame of the association response. */
  function Frame(r: Response): Bytes
    requires Printable(r)
  {
    FixedFields(r) + Print(Elements(r))
  }

  /** The fixed part of the response, octet by octet (sections 8.3.3.6 and 8.4.1.8 of IEEE 802.11-2012): numbers have their low octet
      first, and the two high bits of the association identifier are set. */
  lemma FixedLayout(r: Response)
    requires Printable(r)
    ensures var f := Frame(r);
            && |f| >= 32 + |r.supRates| && f[..24] == r.header && f[24..26] == r.capability && f[26..28] == r.status
            && f[28] as nat == r.aid % 256 && f[29] as nat == 0xc0 + r.aid / 256 % 64
            && f[30] == 1 && f[31] as nat == |r.supRates| && f[32..32 + |r.supRates|] == r.supRates
  {
    hide Elements, AidOctets;
    AidLayout(r.aid);
    var fixed := r.header + r.capability + r.status + AidOctets(r.aid) + [IE_SUPP_RATES, |r.supRates| as Byte] + r.supRates;
    assert Frame(r)[..|fixed|] == fixed;
    assert fixed[..24] == r.header && fixed[24..26] == r.capability && fixed[26..28] == r.status;
    assert fixed[28] == AidOctets(r.aid)[0] && fixed[29] == AidOctets(r.aid)[1];
    assert fixed[32..32 + |r.supRates|] == r.supRates;
  }

  lemma AidLayout(aid: nat)
    ensures AidOctets(aid)[0] as nat == aid % 256 && AidOctets(aid)[1] as nat == 0xc0 + aid / 256 % 64
  {
    hide Split16;
    var a := aid % 0x4000;
    SplitOctets(a + 0xc000);
    LowFourteen(aid);
    assert (a + 0xc000) % 256 == a % 256 && (a + 0xc000) / 256 == a / 256 + 0xc0;
  }

  lemma SplitOctets(n: nat)
    ensures Split16(n)[0] as nat == n / 256 % 256 && Split16(n)[1] as nat == n % 256
  {
  }

  lemma LowFourteen(aid: nat)
    ensures aid % 0x4000 % 256 == aid % 256 && aid % 0x4000 / 256 == aid / 256 % 64
  {
    var a, q := aid % 0x4000, aid / 0x4000;
    assert aid == 256 * (64 * q + a / 256) + a % 256;
    assert aid / 256 == 64 * q + a / 256;
  }

  /** Which elements follow, by their identifiers in section 8.4.2.1 of IEEE 802.11-2012: extended rates, WMM parameters and
      extended capabilities if there are any, the HT elements for a station with HT, their vendor copies and the scan
      parameters if asked for, and always the Ralink element. */
  lemma ElementsExact(r: Response, e: Element)
    requires Printable(r)
    ensures e in Elements(r)
            <==> || (r.extRates != None && e == Element(50, r.extRates.value))
                 || (r.wmm != None && e == Element(221, Edca.Pack(r.wmm.value)))
                 || (r.ht != None && var h := r.ht.value;
                     || e == Element(45, h.htCap) || e == Element(61, h.addHt)
                     || (h.epigram && e == Element(221, [0x00, 0x90, 0x4c, 0x33] + h.htCap))
                     || (h.epigram && e == Element(221, [0x00, 0x90, 0x4c, 0x34] + h.addHt))
                     || (h.overlap != None && e == Element(74, h.overlap.value)))
                 || (r.extCap != None && e == Element(127, r.extCap.value))
                 || e == Element(221, [0x00, 0x0c, 0x43, r.ralinkFlags, 0, 0, 0])
  {
    hide Edca.Pack;
  }

  // What the client should learn from the response.
  function Meaning(r: Response): Parsed
    requires Printable(r)
  {
    Parsed(r.capability, r.status, r.aid % 0x4000, r.supRates,
           if r.extRates == None then [] else r.extRates.value,
           if r.ht == None then None else Some(r.ht.value.htCap),
           if r.ht == None then None else Some(r.ht.value.addHt),
           NO_CH_OFFSET,
           if r.wmm == None then None else Some(Edca.KeptAll(r.wmm.value)))
  }

  // ---------- what the elements say ----------

  lemma {:induction false} FoldConcat(p: Parsed, a: seq<Element>, b: seq<Element>)
    ensures Fold(p, a + b) == Fold(Fold(p, a), b)
    decreases a
  {
    hide Recognise;
    if a == [] {
      assert a + b == b;
    } else {
      assert (a + b)[1..] == a[1..] + b;
      FoldConcat(Recognise(p, a[0]), a[1..], b);
    }
  }

  lemma FoldOne(p: Parsed, e: Element)
    ensures Fold(p, [e]) == Recognise(p, e)
  {
    hide Recognise;
    assert Fold(Recognise(p, e), []) == Recognise(p, e);
  }

  lemma HtPieces(p: Parsed, h: Ht)
    requires |h.htCap| == SIZE_HT_CAP_IE && |h.addHt| == SIZE_ADD_HT_INFO_IE
    ensures Recognise(p, Element(IE_HT_CAP, h.htCap)) == p.(htCapability := Some(h.htCap))
    ensures Recognise(p, Element(IE_ADD_HT, h.addHt)) == p.(addHtInfo := Some(h.addHt))
    ensures KindOf(Element(IE_VENDOR_SPECIFIC, BROADCOM_HTC + h.htCap)) == Unrecognised
    ensures KindOf(Element(IE_VENDOR_SPECIFIC, BROADCOM_AHTINFO + h.addHt)) == Unrecognised
    ensures h.overlap != None ==> KindOf(Element(IE_OVERLAPBSS_SCAN_PARM, h.overlap.value)) == Unrecognised
  {
    assert h.htCap[..SIZE_HT_CAP_IE] == h.htCap && h.addHt[..SIZE_ADD_HT_INFO_IE] == h.addHt;
  }

  lemma {:induction false} FoldUnrecognised(p: Parsed, es: seq<Element>)
    requires forall e :: e in es ==> KindOf(e) == Unrecognised
    ensures Fold(p, es) == p
    decreases es
  {
    hide KindOf;
    if es != [] {
      assert Recognise(p, es[0]) == p;
      FoldUnrecognised(p, es[1..]);
    }
  }

  lemma FoldHt(p: Parsed, h: Ht)
    requires |h.htCap| == SIZE_HT_CAP_IE && |h.addHt| == SIZE_ADD_HT_INFO_IE
    ensures Fold(p, HtElements(h)) == p.(htCapability := Some(h.htCap), addHtInfo := Some(h.addHt))
  {
    hide Fold, Recognise, KindOf;
    var es := HtElements(h);
    HtPieces(p, h);
    HtPieces(p.(htCapability := Some(h.htCap)), h);
    var e0, e1 := es[0], es[1];
    FoldOne(p, e0);
    FoldConcat(p, [e0], es[1..]);
    assert [e0] + es[1..] == es;
    var p1 := Recognise(p, e0);
    FoldOne(p1, e1);
    FoldConcat(p1, [e1], es[2..]);
    assert [e1] + es[2..] == es[1..];
    FoldUnrecognised(Recognise(p1, e1), es[2..]);
  }

  lemma OtherPieces(r: Response)
    requires Printable(r)
    ensures r.extRates != None ==> KindOf(Element(IE_EXT_SUPP_RATES, r.extRates.value)) == ExtRates
    ensures r.wmm != None ==> KindOf(Element(IE_VENDOR_SPECIFIC, Edca.Pack(r.wmm.value))) == Wme
    ensures r.wmm != None ==> Edca.Unpack(Edca.Pack(r.wmm.value)) == Edca.KeptAll(r.wmm.value)
    ensures r.extCap != None ==> KindOf(Element(IE_EXT_CAPABILITY, r.extCap.value)) == Unrecognised
    ensures KindOf(RalinkElement(r.ralinkFlags)) == Unrecognised
  {
    if r.wmm != None {
      Edca.RoundTrip(r.wmm.value);
      hide Edca.Pack, Edca.Unpack, Edca.KeptAll;
    }
  }

  // The elements of a response, one group after the other.
  lemma FoldGroups(p: Parsed, a: seq<Element>, b: seq<Element>, c: seq<Element>, d: seq<Element>, e: seq<Element>)
    ensures Fold(p, a + b + c + d + e) == Fold(Fold(Fold(Fold(Fold(p, a), b), c), d), e)
  {
    FoldConcat(p, a + b + c + d, e);
    FoldConcat(p, a + b + c, d);
    FoldConcat(p, a + b, c);
    FoldConcat(p, a, b);
  }

  // The fields of a successful response before its elements.
  function Before(r: Response): Parsed
    requires Printable(r)
  {
    Parsed(r.capability, r.status, r.aid % 0x4000, r.supRates, [], None, None, NO_CH_OFFSET, None)
  }

  lemma FoldElements(r: Response)
    requires Printable(r)
    ensures Fold(Before(r), Elements(r)) == Meaning(r)
  {
    hide Fold, KindOf, HtElements, RalinkElement, Edca.Pack, Edca.Unpack, Edca.KeptAll, Edca.IsWme;
    OtherPieces(r);
    var a := if r.extRates == None then [] else [Element(IE_EXT_SUPP_RATES, r.extRates.value)];
    var b := if r.wmm == None then [] else [Element(IE_VENDOR_SPECIFIC, Edca.Pack(r.wmm.value))];
    var c := if r.ht == None then [] else HtElements(r.ht.value);
    var d := if r.extCap == None then [] else [Element(IE_EXT_CAPABILITY, r.extCap.value)];
    var e := [RalinkElement(r.ralinkFlags)];
    var p := Before(r);
    FoldGroups(p, a, b, c, d, e);
    FoldUnrecognised(p, []);
    if r.extRates != None {
      FoldOne(p, a[0]);
    }
    var p1 := Fold(p, a);
    FoldUnrecognised(p1, []);
    if r.wmm != None {
      FoldOne(p1, b[0]);
    }
    var p2 := Fold(p1, b);
    FoldUnrecognised(p2, []);
    if r.ht != None {
      FoldHt(p2, r.ht.value);
    }
    FoldUnrecognised(Fold(p2, c), d);
    FoldUnrecognised(Fold(p2, c), e);
  }

  // ---------- the round trip ----------

  lemma AidBack(aid: nat)
    ensures Join16(AidOctets(aid)[1], AidOctets(aid)[0]) % 0x4000 == aid % 0x4000
  {
    hide Split16, Join16;
    var low := aid % 0x4000;
    JoinSplit(low + 0xc000);
    assert (low + 0xc000) % 65536 == low + 0xc000;
    assert (low + 3 * 0x4000) % 0x4000 == low;
  }

  // The fixed fields as the client finds them in its buffer.
  lemma FixedBack(r: Response, buf: Bytes)
    requires Printable(r) && Received(buf, 0) && |FixedFields(r)| <= |buf| && buf[..|FixedFields(r)|] == FixedFields(r)
    ensures |FixedFields(r)| == 32 + |r.supRates|
    ensures buf[24..26] == r.capability && buf[26..28] == r.status
    ensures buf[30] == IE_SUPP_RATES && buf[31] as nat == |r.supRates|
    ensures buf[28] == AidOctets(r.aid)[0] && buf[29] == AidOctets(r.aid)[1]
    ensures buf[32..32 + |r.supRates|] == r.supRates
  {
    hide AidOctets;
    var f := FixedFields(r);
    assert forall i :: 0 <= i < |f| ==> buf[i] == f[i];
    assert f[24..26] == r.capability && f[26..28] == r.status && f[32..] == r.supRates;
    assert buf[24..26] == f[24..26] && buf[26..28] == f[26..28] && buf[32..32 + |r.supRates|] == f[32..];
  }

  /** Parsing a printed response, with its elements in any order and mixed with elements that are not recognised, gives
      back every field the response carries: the AID without its two high bits, the rates, the HT elements and the EDCA
      parameters.  `buf` is the message buffer, of which the frame fills the first `len` octets. */
  lemma RoundTrip(r: Response, es: seq<Element>, buf: Bytes, len: nat)
    requires Printable(r) && r.status == [0, 0] && AllSized(es)
    requires SameRecognised(Elements(r), es)
    requires Received(buf, len) && buf[..len] == FixedFields(r) + Print(es)
    ensures Parse(buf, len) == Some(Meaning(r))
  {
    hide Walk, Print, FixedFields, Elements, AidOctets, Fold, SameRecognised, Meaning, Join16;
    var n := |FixedFields(r)|;
    assert buf[..n] == buf[..len][..n] == FixedFields(r);
    FixedBack(r, buf);
    AidBack(r.aid);
    assert Start(buf) == Before(r);
    assert buf[n..len] == buf[..len][n..] == Print(es);
    WalkPrinted(buf, n, len, es, Before(r));
    OrderIrrelevant(Before(r), Elements(r), es);
    FoldElements(r);
  }

  /** A response that reports a failure is accepted, and only its status and capabilities are looked at. */
  lemma Refusal(r: Response, buf: Bytes, len: nat)
    requires Printable(r) && r.status != [0, 0] && Received(buf, len) && buf[..len] == Frame(r)
    ensures var p := Parse(buf, len);
            p != None && p.value == Fixed(buf) && p.value.status == r.status && p.value.capability == r.capability
  {
    hide Walk, Print, FixedFields, Elements;
    var n := |FixedFields(r)|;
    assert buf[..n] == buf[..len][..n] == FixedFields(r);
    FixedBack(r, buf);
  }

  // ---------- the elements of a response are of different kinds ----------

  predicate Apart(a: seq<Element>, b: seq<Element>) {
    forall x, y :: x in a && y in b && KindOf(x) != Unrecognised ==> KindOf(x) != KindOf(y)
  }

  predicate Distinct(es: seq<Element>) {
    forall k :: k != Unrecognised ==> AtMostOne(es, k)
  }

  lemma DistinctConcat(a: seq<Element>, b: seq<Element>)
    requires Distinct(a) && Distinct(b) && Apart(a, b)
    ensures Distinct(a + b)
  {
    hide KindOf;
    var s := a + b;
    forall k | k != Unrecognised
      ensures AtMostOne(s, k)
    {
      assert AtMostOne(a, k) && AtMostOne(b, k);
      forall i, j | 0 <= i < j < |s|
        ensures KindOf(s[i]) != k || KindOf(s[j]) != k
      {
        if i < |a| <= j {
          assert s[i] in a && s[j] in b;
        }
      }
    }
  }

  /** The printed list satisfies the condition of the round trip. */
  lemma PrintedInOrder(r: Response)
    requires Printable(r)
    ensures SameRecognised(Elements(r), Elements(r))
  {
    hide KindOf, Edca.Pack, BROADCOM_HTC, BROADCOM_AHTINFO;
    OtherPieces(r);
    var a := if r.extRates == None then [] else [Element(IE_EXT_SUPP_RATES, r.extRates.value)];
    var b := if r.wmm == None then [] else [Element(IE_VENDOR_SPECIFIC, Edca.Pack(r.wmm.value))];
    var c := if r.ht == None then [] else HtElements(r.ht.value);
    var d := if r.extCap == None then [] else [Element(IE_EXT_CAPABILITY, r.extCap.value)];
    var e := [RalinkElement(r.ralinkFlags)];
    if r.ht != None {
      HtDistinct(r.ht.value);
    }
    DistinctConcat(a, b);
    DistinctConcat(a + b, c);
    DistinctConcat(a + b + c, d);
    DistinctConcat(a + b + c + d, e);
  }

  lemma HtDistinct(h: Ht)
    requires |h.htCap| == SIZE_HT_CAP_IE && |h.addHt| == SIZE_ADD_HT_INFO_IE
    ensures Distinct(HtElements(h))
    ensures forall x :: x in HtElements(h) ==> KindOf(x) == HtCap || KindOf(x) == AddHt || KindOf(x) == Unrecognised
  {
  }

  // ---------- the builder ----------

  lemma {:induction false} PrintConcat(a: seq<Element>, b: seq<Element>)
    requires AllSized(a) && AllSized(b)
    ensures AllSized(a + b) && Print(a + b) == Print(a) + Print(b)
  {
    hide Octets;
    if a == [] {
      assert a + b == b;
    } else {
      assert (a + b)[1..] == a[1..] + b;
      PrintConcat(a[1..], b);
    }
  }

  lemma PrintOne(e: Element)
    requires Sized(e)
    ensures AllSized([e]) && Print([e]) == Octets(e)
  {
    hide Octets;
    assert Print([]) == [];
  }

  class OutBuffer {
    const data: array<Byte>
    var frameLen: nat
    ghost var elements: seq<Element>

    // The buffer holds `front` and the elements appended so far.
    ghost predicate Holds(front: Bytes)
      reads this, data
    {
      AllSized(elements) && frameLen <= data.Length && data[..frameLen] == front + Print(elements)
    }

    constructor (size: nat)
      ensures fresh(data) && data.Length == size && frameLen == 0 && elements == []
    {
      data := new Byte[size];
      frameLen, elements := 0, [];
    }

    /** MakeOutgoingFrame at the current end of the frame. */
    method Append(b: Bytes)
      requires frameLen + |b| <= data.Length
      modifies this`frameLen, data
      ensures frameLen == old(frameLen) + |b| && data[..frameLen] == old(data[..frameLen]) + b
    {
      for i := 0 to |b|
        invariant frameLen == old(frameLen) && data[..frameLen] == old(data[..frameLen])
        invariant forall j :: 0 <= j < i ==> data[frameLen + j] == b[j]
      {
        data[frameLen + i] := b[i];
      }
      frameLen := frameLen + |b|;
    }

    method AppendElement(e: Element, ghost front: Bytes)
      requires Holds(front) && Sized(e) && frameLen + 2 + |e.body| <= data.Length
      modifies this, data
      ensures Holds(front) && elements == old(elements) + [e] && frameLen == old(frameLen) + 2 + |e.body|
    {
      hide Octets, Print;
      PrintConcat(elements, [e]);
      PrintOne(e);
      ghost var printed := Print(elements);
      Append(Octets(e));
      elements := elements + [e];
      assert front + printed + Octets(e) == front + (printed + Octets(e));
    }
  }

  /** The part of ap_cmm_peer_assoc_req_action that builds the response in an empty output buffer of 2048 octets. */
  method Build(r: Response, out: OutBuffer)
    requires Printable(r) && out.frameLen == 0 && out.elements == [] && out.data.Length >= 2048
    modifies out, out.data
    ensures out.frameLen <= out.data.Length && out.data[..out.frameLen] == Frame(r)
  {
    hide Print, AidOctets, Elements;
    out.Append(r.header + r.capability + r.status + AidOctets(r.aid) + [IE_SUPP_RATES, |r.supRates| as Byte] + r.supRates);
    NothingPrinted(FixedFields(r));
    assert out.data[..out.frameLen] == FixedFields(r);
    BuildElements(r, out, FixedFields(r));
  }

  method BuildElements(r: Response, out: OutBuffer, ghost front: Bytes)
    requires Printable(r) && out.Holds(front) && out.elements == [] && out.frameLen + 1000 <= out.data.Length
    modifies out, out.data
    ensures out.Holds(front) && out.elements == Elements(r)
  {
    hide Print, Edca.Pack, HtElements, RalinkElement;
    RalinkSize(r.ralinkFlags);
    ghost var a := if r.extRates == None then [] else [Element(IE_EXT_SUPP_RATES, r.extRates.value)];
    ghost var b := if r.wmm == None then [] else [Element(IE_VENDOR_SPECIFIC, Edca.Pack(r.wmm.value))];
    ghost var c := if r.ht == None then [] else HtElements(r.ht.value);
    ghost var d := if r.extCap == None then [] else [Element(IE_EXT_CAPABILITY, r.extCap.value)];
    if r.extRates != None {
      out.AppendElement(Element(IE_EXT_SUPP_RATES, r.extRates.value), front);
    }
    assert out.elements == a;
    if r.wmm != None {
      out.AppendElement(Element(IE_VENDOR_SPECIFIC, Edca.Pack(r.wmm.value)), front);
    }
    assert out.elements == a + b;
    if r.ht != None {
      BuildHt(r.ht.value, out, front);
    }
    assert out.elements == a + b + c;
    if r.extCap != None {
      out.AppendElement(Element(IE_EXT_CAPABILITY, r.extCap.value), front);
    }
    assert out.elements == a + b + c + d;
    out.AppendElement(RalinkElement(r.ralinkFlags), front);
  }

  lemma RalinkSize(flags: Byte)
    ensures |RalinkElement(flags).body| == 7
  {
  }

  method BuildHt(h: Ht, out: OutBuffer, ghost front: Bytes)
    requires |h.htCap| == SIZE_HT_CAP_IE && |h.addHt| == SIZE_ADD_HT_INFO_IE
    requires h.overlap != None ==> |h.overlap.value| == 14
    requires out.Holds(front) && out.frameLen + 200 <= out.data.Length
    modifies out, out.data
    ensures out.Holds(front) && out.elements == old(out.elements) + HtElements(h)
    ensures out.frameLen <= old(out.frameLen) + 200
  {
    out.AppendElement(Element(IE_HT_CAP, h.htCap), front);
    out.AppendElement(Element(IE_ADD_HT, h.addHt), front);
    if h.epigram {
      out.AppendElement(Element(IE_VENDOR_SPECIFIC, BROADCOM_HTC + h.htCap), front);
      out.AppendElement(Element(IE_VENDOR_SPECIFIC, BROADCOM_AHTINFO + h.addHt), front);
    }
    if h.overlap != None {
      out.AppendElement(Element(IE_OVERLAPBSS_SCAN_PARM, h.overlap.value), front);
    }
  }

  lemma NothingPrinted(front: Bytes)
    ensures front + Print([]) == front
  {
  }
}
