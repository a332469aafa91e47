/** The association request as the access point parses it (PeerAssocReqCmmSanity of ap/ap_sanity.c): the walk over its
    elements, and what the request means. */
module AssocReq {
  import opened Bytes
  import opened InfoElements
  import opened Wrappers
  import MacTable
  import Steps
  import Types

  const MAX_LEN_OF_SSID := 32
  const MAX_LEN_OF_RSNIE := 255     // octets of the buffer for the RSN element
  const MIN_LEN_OF_RSNIE := 18

  const WPS_OUI: Bytes := [0x00, 0x50, 0xf2, 0x04]
  const RALINK_OUI: Bytes := [0x00, 0x0c, 0x43]
  const WME_INFO_ELEM: Bytes := [0x00, 0x50, 0xf2, 0x02, 0x00, 0x01]
  const WPA1_OUI: Bytes := [0x00, 0x50, 0xf2, 0x01]
  const WPA2_OUI: Bytes := [0x00, 0x0f, 0xac]
  const RATE_DEFAULT: Bytes := [0x82, 0x84, 0x8b, 0x96, 0x12, 0x24, 0x48, 0x6c]
  const RALINK_NO_FLAGS := 0xf000_0000

  const WINDOW := 5                 // octets that are compared whatever the length of the element

  /** What the walk has found so far.  `rated` says that supported rates were among it, `rsn` is the last RSN element that
      was copied and `rsnLen` its length as recorded in an octet.  `rsnRoom` is a log that the driver does not keep: the
      most octets that were copied to the RSN buffer at once. */
  datatype Request = Request(
    ssid: Option<Bytes>,
    rated: bool,
    rates: Bytes,
    ht: Option<Bytes>,
    extCap: Option<Byte>,
    ralink: nat,
    wmm: bool,
    rsn: Bytes,
    rsnLen: nat,
    rsnRoom: nat)

  // The request so far, and whether the walk goes on.
  datatype Outcome = Outcome(p: Request, ok: bool)

  datatype Kind = SsidIe | RatesIe | ExtRatesIe | HtIe | ExtCapIe | BroadcomIe | RalinkIe | WmmIe | RsnIe | ShortRsnIe | OtherIe

  // An element and what the switch makes of it.
  datatype Item = Item(e: Element, k: Kind)

  predicate IsVendor(e: Element) {
    e.eid == IE_VENDOR_SPECIFIC || e.eid == IE_WPA2
  }

  // The element holds what its kind needs.
  predicate LongEnough(e: Element, k: Kind) {
    && (k == HtIe ==> |e.body| >= SIZE_HT_CAP_IE) && (k == BroadcomIe ==> |e.body| == 4 + SIZE_HT_CAP_IE)
    && (k == ExtCapIe ==> |e.body| >= 1) && (k == RalinkIe ==> |e.body| == 7)
  }

  predicate Apt(x: Item) {
    Sized(x.e) && LongEnough(x.e, x.k)
  }

  predicate AllApt(xs: seq<Item>) {
    forall x :: x in xs ==> Apt(x)
  }

  // What the switch makes of an element; `window` holds the octets after its length, which may be those of the next element.
  function KindOf(e: Element, window: Bytes, wpa: bool): (k: Kind)
    requires |window| == WINDOW
    ensures LongEnough(e, k)
  {
    if e.eid == IE_SSID then SsidIe
    else if e.eid == IE_SUPP_RATES then RatesIe
    else if e.eid == IE_EXT_SUPP_RATES then ExtRatesIe
    else if e.eid == IE_HT_CAP then (if |e.body| >= SIZE_HT_CAP_IE then HtIe else OtherIe)
    else if e.eid == IE_EXT_CAPABILITY then (if |e.body| >= 1 then ExtCapIe else OtherIe)
    else if !IsVendor(e) || window[..4] == WPS_OUI then OtherIe
    else if window[..4] == BROADCOM_HTC && |e.body| == 4 + SIZE_HT_CAP_IE then BroadcomIe
    else if window[..3] == RALINK_OUI && |e.body| == 7 then RalinkIe
    else if |e.body| == 7 && e.body[..6] == WME_INFO_ELEM then WmmIe
    else if !wpa || (window[..4] != WPA1_OUI && window[2..] != WPA2_OUI) then OtherIe
    else if |e.body| >= MIN_LEN_OF_RSNIE then RsnIe
    else ShortRsnIe
  }

  // As much of the rates as there is room for.
  function Cut(rates: Bytes): (r: Bytes)
    ensures |r| <= MAX_LEN_OF_SUPPORTED_RATES && r <= rates
  {
    if |rates| <= MAX_LEN_OF_SUPPORTED_RATES then rates else rates[..MAX_LEN_OF_SUPPORTED_RATES]
  }

  // The supported rates of an element, or the default if it has none or too many.
  function RatesOf(body: Bytes): (r: Bytes)
    ensures |r| <= MAX_LEN_OF_SUPPORTED_RATES
  {
    if 0 < |body| <= MAX_LEN_OF_SUPPORTED_RATES then body else RATE_DEFAULT
  }

  function RalinkOf(flags: Byte): nat {
    if flags != 0 then flags as nat else RALINK_NO_FLAGS
  }

  function Max(a: nat, b: nat): nat {
    if a < b then b else a
  }

  /** One element.  A long SSID or a short RSN element ends the walk with the result FALSE. */
  function Recognise(p: Request, x: Item): Outcome
    requires Apt(x)
  {
    var body := x.e.body;
    match x.k
    case SsidIe =>
      if p.ssid != None then Outcome(p, true)
      else if |body| <= MAX_LEN_OF_SSID then Outcome(p.(ssid := Some(body)), true) else Outcome(p, false)
    case RatesIe => Outcome(p.(rated := true, rates := RatesOf(body)), true)
    case ExtRatesIe => Outcome(p.(rates := Cut(p.rates + body)), true)
    case HtIe => Outcome(p.(ht := Some(body[..SIZE_HT_CAP_IE])), true)
    case ExtCapIe => Outcome(p.(extCap := Some(body[0])), true)
    case BroadcomIe => Outcome(p.(ht := Some(body[4..4 + SIZE_HT_CAP_IE])), true)
    case RalinkIe => Outcome(p.(ralink := RalinkOf(body[3])), true)
    case WmmIe => Outcome(p.(wmm := true), true)
    case RsnIe => Outcome(p.(rsn := Octets(x.e), rsnLen := (|body| + 2) % 256, rsnRoom := Max(p.rsnRoom, |body| + 2)), true)
    case ShortRsnIe => Outcome(p.(rsnLen := 0), false)
    case OtherIe => Outcome(p, true)
  }

  // The element at `at` lies within a message that ends at `end`.
  predicate Complete(buf: Bytes, at: nat, end: nat)
    requires end <= |buf|
  {
    at + 2 <= end && at + 2 + buf[at + 1] as nat <= end
  }

  // The element at `at`, as the switch sees it.
  function ItemAt(buf: Bytes, at: nat, end: nat, wpa: bool): (x: Item)
    requires end + WINDOW <= |buf| && Complete(buf, at, end)
    ensures Apt(x) && |x.e.body| == buf[at + 1] as nat
  {
    var e := Element(buf[at], buf[at + 2..at + 2 + buf[at + 1] as nat]);
    Item(e, KindOf(e, buf[at + 2..at + 2 + WINDOW], wpa))
  }

  /** The loop over the elements from `at` on in a message that ends at `end`. */
  function Walk(buf: Bytes, at: nat, end: nat, p: Request, wpa: bool): Outcome
    requires end + WINDOW <= |buf|
    decreases end - at
  {
    if !Complete(buf, at, end) then Outcome(p, true)
    else
      var o := Recognise(p, ItemAt(buf, at, end, wpa));
      if o.ok then Walk(buf, at + 2 + buf[at + 1] as nat, end, o.p, wpa) else o
  }

  const NOTHING := Request(None, false, [], None, None, 0, false, [], 0, 0)

  // The elements start after the fixed fields.
  function Front(isReassoc: bool): nat {
    LENGTH_802_11 + if isReassoc then 10 else 4
  }

  /** PeerAssocReqCmmSanity for a sender in the table whose BSS uses WPA or not; None stands for the result FALSE. */
  function Parse(buf: Bytes, len: nat, isReassoc: bool, wpa: bool): Option<Request>
    requires len + WINDOW <= |buf|
  {
    var o := Walk(buf, Front(isReassoc), len, NOTHING, wpa);
    if o.ok && o.p.ssid != None && o.p.rated then Some(o.p) else None
  }

  // One round on the message buffer.
  method Round(msg: array<Byte>, at: nat, len: nat, p: Request, wpa: bool) returns (o: Outcome)
    requires len + WINDOW <= msg.Length && Complete(msg[..], at, len)
    ensures o == Recognise(p, ItemAt(msg[..], at, len, wpa))
  {
    hide Recognise, KindOf;
    var next := at + 2 + msg[at + 1] as nat;
    assert msg[..][at + 2..next] == msg[at + 2..next];
    assert msg[..][at + 2..at + 2 + WINDOW] == msg[at + 2..at + 2 + WINDOW];
    var e := Element(msg[at], msg[at + 2..next]);
    o := Recognise(p, Item(e, KindOf(e, msg[at + 2..at + 2 + WINDOW], wpa)));
  }

  /** The loop over the message buffer. */
  method ParseAssocReq(msg: array<Byte>, len: nat, isReassoc: bool, wpa: bool) returns (r: Option<Request>)
    requires len + WINDOW <= msg.Length
    ensures r == Parse(msg[..], len, isReassoc, wpa)
  {
    hide Recognise, ItemAt;
    var p := NOTHING;
    var at := Front(isReassoc);
    while at + 2 <= len && at + 2 + msg[at + 1] as nat <= len
      invariant Walk(msg[..], at, len, p, wpa) == Walk(msg[..], Front(isReassoc), len, NOTHING, wpa)
      decreases len - at
    {
      assert Complete(msg[..], at, len);
      var o := Round(msg, at, len, p, wpa);
      if !o.ok {
        return None;
      }
      p := o.p;
      at := at + 2 + msg[at + 1] as nat;
    }
    assert !Complete(msg[..], at, len);
    r := if p.ssid != None && p.rated then Some(p) else None;
  }

  // ---------- the walk as a fold over the elements ----------

  function Fold(p: Request, xs: seq<Item>): Outcome
    requires AllApt(xs)
    decreases xs
  {
    if xs == [] then Outcome(p, true)
    else
      var o := Recognise(p, xs[0]);
      if o.ok then Fold(o.p, xs[1..]) else o
  }

  // The elements of the message, as the switch sees them.
  function Items(buf: Bytes, at: nat, end: nat, wpa: bool): (xs: seq<Item>)
    requires end + WINDOW <= |buf|
    ensures AllApt(xs)
    decreases end - at
  {
    if !Complete(buf, at, end) then []
    else [ItemAt(buf, at, end, wpa)] + Items(buf, at + 2 + buf[at + 1] as nat, end, wpa)
  }

  lemma {:induction false} WalkIsFold(buf: Bytes, at: nat, end: nat, p: Request, wpa: bool)
    requires end + WINDOW <= |buf|
    ensures Walk(buf, at, end, p, wpa) == Fold(p, Items(buf, at, end, wpa))
    decreases end - at
  {
    hide Recognise, ItemAt;
    if Complete(buf, at, end) {
      var o := Recognise(p, ItemAt(buf, at, end, wpa));
      if o.ok {
        WalkIsFold(buf, at + 2 + buf[at + 1] as nat, end, o.p, wpa);
      }
    }
  }

  // ---------- what a request means ----------

  // The first SSID counts.
  function FirstSsid(xs: seq<Item>): (r: Option<Bytes>)
    ensures match r {
              case None => forall i :: 0 <= i < |xs| ==> xs[i].k != SsidIe
              case Some(b) => exists i :: 0 <= i < |xs| && xs[i].k == SsidIe && xs[i].e.body == b
                                          && forall j :: 0 <= j < i ==> xs[j].k != SsidIe
            }
  {
    if xs == [] then None
    else
      var n := |xs| - 1;
      if FirstSsid(xs[..n]) != None then FirstSsid(xs[..n])
      else if xs[n].k == SsidIe then Some(xs[n].e.body) else None
  }

  // The last element of one of the kinds.
  function LastOf(xs: seq<Item>, ks: set<Kind>): (r: Option<Item>)
    ensures r != None ==> r.value in xs && r.value.k in ks
    ensures r == None <==> forall x :: x in xs ==> x.k !in ks
  {
    if xs == [] then None
    else if xs[|xs| - 1].k in ks then Some(xs[|xs| - 1])
    else LastOf(xs[..|xs| - 1], ks)
  }

  // The extended rates behind the last supported rates, one after the other.
  function ExtendedAfter(xs: seq<Item>): Bytes {
    if xs == [] then []
    else
      var n := |xs| - 1;
      if xs[n].k == RatesIe then []
      else ExtendedAfter(xs[..n]) + if xs[n].k == ExtRatesIe then xs[n].e.body else []
  }

  // The last supported rates and the extended rates behind them, as far as there is room.
  function RatesIn(xs: seq<Item>): Bytes {
    var s := LastOf(xs, {RatesIe});
    Cut((if s == None then [] else RatesOf(s.value.e.body)) + ExtendedAfter(xs))
  }

  function HtIn(xs: seq<Item>): Option<Bytes>
    requires AllApt(xs)
  {
    match LastOf(xs, {HtIe, BroadcomIe})
    case None => None
    case Some(x) => Some(if x.k == HtIe then x.e.body[..SIZE_HT_CAP_IE] else x.e.body[4..4 + SIZE_HT_CAP_IE])
  }

  function ExtCapIn(xs: seq<Item>): Option<Byte>
    requires AllApt(xs)
  {
    match LastOf(xs, {ExtCapIe}) case None => None case Some(x) => Some(x.e.body[0])
  }

  function RalinkIn(xs: seq<Item>): nat
    requires AllApt(xs)
  {
    match LastOf(xs, {RalinkIe}) case None => 0 case Some(x) => RalinkOf(x.e.body[3])
  }

  function RsnIn(xs: seq<Item>): Bytes
    requires AllApt(xs)
  {
    match LastOf(xs, {RsnIe}) case None => [] case Some(x) => Octets(x.e)
  }

  // The octets of the longest RSN element.
  function LongestRsn(xs: seq<Item>): (n: nat)
    ensures forall x :: x in xs && x.k == RsnIe ==> |x.e.body| + 2 <= n
    ensures n > 0 ==> exists x :: x in xs && x.k == RsnIe && |x.e.body| + 2 == n
  {
    if xs == [] then 0
    else
      var x := xs[|xs| - 1];
      var n := LongestRsn(xs[..|xs| - 1]);
      if x.k == RsnIe then Max(n, |x.e.body| + 2) else n
  }

  function Summary(xs: seq<Item>): Request
    requires AllApt(xs)
  {
    Request(FirstSsid(xs), LastOf(xs, {RatesIe}) != None, RatesIn(xs), HtIn(xs), ExtCapIn(xs), RalinkIn(xs),
            LastOf(xs, {WmmIe}) != None, RsnIn(xs), |RsnIn(xs)| % 256, LongestRsn(xs))
  }

  // An element that makes the access point refuse the request at once.
  predicate Refuses(xs: seq<Item>) {
    || (FirstSsid(xs) != None && |FirstSsid(xs).value| > MAX_LEN_OF_SSID)
    || exists x :: x in xs && x.k == ShortRsnIe
  }

  lemma {:induction false} FoldConcat(p: Request, a: seq<Item>, b: seq<Item>)
    requires AllApt(a) && AllApt(b)
    ensures AllApt(a + b)
    ensures Fold(p, a + b) == if Fold(p, a).ok then Fold(Fold(p, a).p, b) else Fold(p, a)
    decreases a
  {
    hide Recognise, Apt;
    if a == [] {
      assert a + b == b;
    } else {
      assert (a + b)[1..] == a[1..] + b;
      var o := Recognise(p, a[0]);
      if o.ok {
        FoldConcat(o.p, a[1..], b);
      }
    }
  }

  lemma FoldSnoc(p: Request, xs: seq<Item>, x: Item)
    requires AllApt(xs) && Apt(x)
    ensures AllApt(xs + [x])
    ensures Fold(p, xs + [x]) == if Fold(p, xs).ok then Recognise(Fold(p, xs).p, x) else Fold(p, xs)
  {
    hide Recognise, Apt;
    FoldConcat(p, xs, [x]);
    assert [x][1..] == [];
  }

  // Cutting twice is cutting once.
  lemma CutCut(a: Bytes, b: Bytes)
    ensures Cut(Cut(a) + b) == Cut(a + b)
  {
    if |a| > MAX_LEN_OF_SUPPORTED_RATES {
      var l, r := Cut(Cut(a) + b), Cut(a + b);
      assert |l| == |r| == MAX_LEN_OF_SUPPORTED_RATES;
      assert forall k :: 0 <= k < |l| ==> l[k] == a[k] == r[k];
    }
  }

  // Each part of the summary when one more element comes.
  lemma LastSnoc(xs: seq<Item>, x: Item, ks: set<Kind>)
    ensures LastOf(xs + [x], ks) == if x.k in ks then Some(x) else LastOf(xs, ks)
  {
    assert (xs + [x])[..|xs|] == xs;
  }

  lemma FirstSnoc(xs: seq<Item>, x: Item)
    ensures FirstSsid(xs + [x])
            == if FirstSsid(xs) != None then FirstSsid(xs) else if x.k == SsidIe then Some(x.e.body) else None
  {
    assert (xs + [x])[..|xs|] == xs;
  }

  lemma ExtendedSnoc(xs: seq<Item>, x: Item)
    ensures ExtendedAfter(xs + [x])
            == if x.k == RatesIe then [] else ExtendedAfter(xs) + if x.k == ExtRatesIe then x.e.body else []
  {
    assert (xs + [x])[..|xs|] == xs;
  }

  lemma LongestSnoc(xs: seq<Item>, x: Item)
    ensures LongestRsn(xs + [x]) == if x.k == RsnIe then Max(LongestRsn(xs), |x.e.body| + 2) else LongestRsn(xs)
  {
    assert (xs + [x])[..|xs|] == xs;
  }

  lemma CutRates(body: Bytes)
    ensures Cut(RatesOf(body) + []) == RatesOf(body)
  {
    NothingAdded(RatesOf(body));
  }

  lemma RatesSnoc(xs: seq<Item>, x: Item)
    ensures RatesIn(xs + [x])
            == match x.k {
                 case RatesIe => RatesOf(x.e.body)
                 case ExtRatesIe => Cut(RatesIn(xs) + x.e.body)
                 case _ => RatesIn(xs)
               }
  {
    hide Cut, RatesOf, LastOf, ExtendedAfter;
    LastSnoc(xs, x, {RatesIe});
    ExtendedSnoc(xs, x);
    var s := LastOf(xs, {RatesIe});
    var base := if s == None then [] else RatesOf(s.value.e.body);
    Joined(base, ExtendedAfter(xs), x.e.body);
    NothingAdded(ExtendedAfter(xs));
    CutCut(base + ExtendedAfter(xs), x.e.body);
    CutRates(x.e.body);
  }

  lemma RefusesSnoc(xs: seq<Item>, x: Item)
    ensures Refuses(xs + [x])
            <==> Refuses(xs) || x.k == ShortRsnIe
                 || (FirstSsid(xs) == None && x.k == SsidIe && |x.e.body| > MAX_LEN_OF_SSID)
  {
    FirstSnoc(xs, x);
    assert x in xs + [x];
    assert forall y :: y in xs ==> y in xs + [x];
  }

  lemma PartsSnoc(xs: seq<Item>, x: Item)
    requires AllApt(xs) && Apt(x) && AllApt(xs + [x])
    ensures HtIn(xs + [x])
            == match x.k {
                 case HtIe => Some(x.e.body[..SIZE_HT_CAP_IE])
                 case BroadcomIe => Some(x.e.body[4..4 + SIZE_HT_CAP_IE])
                 case _ => HtIn(xs)
               }
    ensures ExtCapIn(xs + [x]) == if x.k == ExtCapIe then Some(x.e.body[0]) else ExtCapIn(xs)
    ensures RalinkIn(xs + [x]) == if x.k == RalinkIe then RalinkOf(x.e.body[3]) else RalinkIn(xs)
    ensures RsnIn(xs + [x]) == if x.k == RsnIe then Octets(x.e) else RsnIn(xs)
  {
    hide LastOf, RalinkOf, Octets;
    LastSnoc(xs, x, {HtIe, BroadcomIe});
    LastSnoc(xs, x, {ExtCapIe});
    LastSnoc(xs, x, {RalinkIe});
    LastSnoc(xs, x, {RsnIe});
  }

  // The fields one by one.
  lemma RecogniseFields(p: Request, x: Item)
    requires Apt(x)
    ensures var o := Recognise(p, x); var body := x.e.body;
            && (o.ok <==> x.k != ShortRsnIe && !(x.k == SsidIe && p.ssid == None && |body| > MAX_LEN_OF_SSID))
            && (o.ok ==>
                  && o.p.ssid == (if x.k == SsidIe && p.ssid == None then Some(body) else p.ssid)
                  && o.p.rated == (p.rated || x.k == RatesIe)
                  && o.p.rates == (match x.k { case RatesIe => RatesOf(body) case ExtRatesIe => Cut(p.rates + body) case _ => p.rates })
                  && o.p.ht == (match x.k {
                                  case HtIe => Some(body[..SIZE_HT_CAP_IE])
                                  case BroadcomIe => Some(body[4..4 + SIZE_HT_CAP_IE])
                                  case _ => p.ht
                                })
                  && o.p.extCap == (if x.k == ExtCapIe then Some(body[0]) else p.extCap)
                  && o.p.ralink == (if x.k == RalinkIe then RalinkOf(body[3]) else p.ralink)
                  && o.p.wmm == (p.wmm || x.k == WmmIe)
                  && o.p.rsn == (if x.k == RsnIe then Octets(x.e) else p.rsn)
                  && o.p.rsnLen == (if x.k == RsnIe then (|body| + 2) % 256 else p.rsnLen)
                  && o.p.rsnRoom == (if x.k == RsnIe then Max(p.rsnRoom, |body| + 2) else p.rsnRoom))
  {
    hide Octets, RatesOf, Cut, RalinkOf, Max;
  }

  lemma SummarySnoc(xs: seq<Item>, x: Item)
    requires AllApt(xs) && Apt(x) && AllApt(xs + [x]) && !Refuses(xs)
    ensures var o := Recognise(Summary(xs), x);
            (o.ok <==> !Refuses(xs + [x])) && (o.ok ==> o.p == Summary(xs + [x]))
  {
    hide RatesIn, Octets, LastOf, FirstSsid, Refuses, RatesOf, Cut, HtIn, ExtCapIn, RalinkIn, RsnIn, LongestRsn, Max, Recognise;
    RecogniseFields(Summary(xs), x);
    RefusesSnoc(xs, x);
    NotRefused(xs);
    RatesSnoc(xs, x);
    FirstSnoc(xs, x);
    LongestSnoc(xs, x);
    PartsSnoc(xs, x);
    LastSnoc(xs, x, {RatesIe});
    LastSnoc(xs, x, {WmmIe});
  }

  lemma NotRefused(xs: seq<Item>)
    requires !Refuses(xs)
    ensures FirstSsid(xs) != None ==> |FirstSsid(xs).value| <= MAX_LEN_OF_SSID
  {
  }

  /** The walk refuses exactly the lists with a long first SSID or a short RSN element; of all others it makes what their
      first SSID, their last elements of each other kind, and their rates say. */
  lemma {:induction false} FoldIsSummary(xs: seq<Item>)
    requires AllApt(xs)
    ensures Fold(NOTHING, xs).ok <==> !Refuses(xs)
    ensures !Refuses(xs) ==> Fold(NOTHING, xs).p == Summary(xs)
    decreases |xs|
  {
    hide Recognise, Apt;
    if xs != [] {
      var n := |xs| - 1;
      assert xs == xs[..n] + [xs[n]];
      FoldIsSummary(xs[..n]);
      FoldSnoc(NOTHING, xs[..n], xs[n]);
      RefusesSnoc(xs[..n], xs[n]);
      if !Refuses(xs[..n]) {
        SummarySnoc(xs[..n], xs[n]);
      }
    }
  }

  // The mandatory elements are there, and nothing makes the access point refuse the request.
  predicate Acceptable(xs: seq<Item>) {
    (exists x :: x in xs && x.k == SsidIe) && (exists x :: x in xs && x.k == RatesIe) && !Refuses(xs)
  }

  lemma Mandatory(xs: seq<Item>)
    ensures FirstSsid(xs) != None <==> exists x :: x in xs && x.k == SsidIe
    ensures LastOf(xs, {RatesIe}) != None <==> exists x :: x in xs && x.k == RatesIe
  {
    hide LastOf;
    if x :| x in xs && x.k == SsidIe {
      var i :| 0 <= i < |xs| && xs[i] == x;
    }
  }

  /** For any octets at all, the request is accepted if and only if it has an SSID and supported rates, its first SSID is not
      too long and no RSN element is too short; its meaning is that of the first SSID, of the last element of each other
      kind, and of the rates with the extended rates behind them. */
  lemma Meaning(buf: Bytes, len: nat, isReassoc: bool, wpa: bool)
    requires len + WINDOW <= |buf|
    ensures var xs := Items(buf, Front(isReassoc), len, wpa);
            Parse(buf, len, isReassoc, wpa) == if Acceptable(xs) then Some(Summary(xs)) else None
  {
    hide Walk, Fold, Refuses, FirstSsid, LastOf, RatesIn, HtIn, ExtCapIn, RalinkIn, RsnIn, Front, Items, LongestRsn;
    var xs := Items(buf, Front(isReassoc), len, wpa);
    WalkIsFold(buf, Front(isReassoc), len, NOTHING, wpa);
    FoldIsSummary(xs);
    Mandatory(xs);
  }

  // ---------- printed elements ----------

  // The elements with the kinds they have one behind the other, with the octets `behind` the last one.
  function Labelled(es: seq<Element>, behind: Bytes, wpa: bool): (xs: seq<Item>)
    requires AllSized(es) && |behind| >= WINDOW
    ensures AllApt(xs) && |xs| == |es| && forall i :: 0 <= i < |es| ==> xs[i].e == es[i]
  {
    if es == [] then []
    else
      var octets := es[0].body + (Print(es[1..]) + behind);
      [Item(es[0], KindOf(es[0], octets[..WINDOW], wpa))] + Labelled(es[1..], behind, wpa)
  }

  lemma ItemPrinted(buf: Bytes, at: nat, end: nat, e: Element, tail: Bytes, wpa: bool)
    requires Sized(e) && at <= end && end + WINDOW <= |buf| && buf[at..end] == Octets(e) + tail
    ensures var next := at + 2 + |e.body|;
            && Complete(buf, at, end) && next == at + 2 + buf[at + 1] as nat && buf[next..end] == tail
            && ItemAt(buf, at, end, wpa) == Item(e, KindOf(e, (e.body + (tail + buf[end..]))[..WINDOW], wpa))
  {
    hide Octets, KindOf;
    ElementAt(buf, at, end, e, tail);
    var next := at + 2 + |e.body|;
    var octets := e.body + (tail + buf[end..]);
    assert buf[at + 2..] == buf[at + 2..next] + (buf[next..end] + buf[end..]);
    assert buf[at + 2..at + 2 + WINDOW] == buf[at + 2..][..WINDOW];
  }

  lemma NoItems(buf: Bytes, end: nat, wpa: bool)
    requires end + WINDOW <= |buf|
    ensures Items(buf, end, end, wpa) == []
  {
  }

  lemma {:induction false} ItemsPrinted(buf: Bytes, at: nat, end: nat, es: seq<Element>, wpa: bool)
    requires AllSized(es) && at <= end && end + WINDOW <= |buf| && buf[at..end] == Print(es)
    ensures Items(buf, at, end, wpa) == Labelled(es, buf[end..], wpa)
    decreases es
  {
    hide Octets, KindOf, ItemAt, Complete, LongEnough, Apt;
    if es == [] {
      assert at == end;
      NoItems(buf, end, wpa);
    } else {
      ItemPrinted(buf, at, end, es[0], Print(es[1..]), wpa);
      ItemsPrinted(buf, at + 2 + |es[0].body|, end, es[1..], wpa);
    }
  }

  /** Parsing any printed list of elements behind the fixed fields. */
  lemma RoundTrip(buf: Bytes, len: nat, isReassoc: bool, wpa: bool, es: seq<Element>)
    requires AllSized(es) && Front(isReassoc) <= len && len + WINDOW <= |buf|
    requires buf[Front(isReassoc)..len] == Print(es)
    ensures var xs := Labelled(es, buf[len..], wpa);
            Parse(buf, len, isReassoc, wpa) == if Acceptable(xs) then Some(Summary(xs)) else None
  {
    hide Parse, Acceptable, Summary, Front, Items, Labelled;
    ItemsPrinted(buf, Front(isReassoc), len, es, wpa);
    Meaning(buf, len, isReassoc, wpa);
  }

  // ---------- short vendor elements ----------

  // `window` can be what the switch sees of an element with this body.
  predicate CanSee(body: Bytes, window: Bytes) {
    |window| == WINDOW && forall k :: 0 <= k < |body| && k < WINDOW ==> window[k] == body[k]
  }

  // The octets of the body agree with an OUI that starts `at` octets behind the length.
  predicate Agrees(body: Bytes, oui: Bytes, at: nat) {
    forall k :: at <= k < |body| && k < at + |oui| ==> body[k] == oui[k - at]
  }

  // The body could be the start of a WPA or RSN element.
  predicate Compatible(body: Bytes) {
    Agrees(body, WPA1_OUI, 0) || Agrees(body, WPA2_OUI, 2)
  }

  // The octets behind the body decide: it is too short to be the start of one for certain.
  predicate Ambiguous(body: Bytes) {
    |body| < WINDOW && Compatible(body) && body != WPA1_OUI
  }

  // What the switch makes of the element does not depend on the octets behind it.
  predicate ContextFree(e: Element, wpa: bool) {
    !(wpa && IsVendor(e) && Ambiguous(e.body))
  }

  // What the element is by itself.
  function OwnKind(e: Element, wpa: bool): (k: Kind)
    ensures LongEnough(e, k)
  {
    KindOf(e, if |e.body| >= WINDOW then e.body[..WINDOW] else e.body + seq(WINDOW - |e.body|, _ => 0xff), wpa)
  }

  lemma ShortKind(e: Element, w: Bytes, wpa: bool)
    requires IsVendor(e) && |e.body| < WINDOW && |w| == WINDOW
    ensures KindOf(e, w, wpa) == if wpa && (w[..4] == WPA1_OUI || (w[2..] == WPA2_OUI && w[..4] != WPS_OUI)) then ShortRsnIe else OtherIe
  {
    assert WPA1_OUI[3] != WPS_OUI[3];
  }

  // The octets that make the most of a short body.
  function Completed(body: Bytes): (w: Bytes)
    requires |body| < WINDOW
    ensures CanSee(body, w)
  {
    body + (if Agrees(body, WPA1_OUI, 0) then WPA1_OUI + [0] else [0, 0] + WPA2_OUI)[|body|..]
  }

  lemma CompletedIs(body: Bytes)
    requires |body| < WINDOW && Compatible(body)
    ensures Agrees(body, WPA1_OUI, 0) ==> Completed(body)[..4] == WPA1_OUI
    ensures !Agrees(body, WPA1_OUI, 0) ==> Completed(body)[2..] == WPA2_OUI && Completed(body)[..4] != WPS_OUI
  {
    var w := Completed(body);
    if !Agrees(body, WPA1_OUI, 0) {
      assert forall k :: 2 <= k < WINDOW ==> w[k] == WPA2_OUI[k - 2];
      assert w[2] == 0 != WPS_OUI[2];
    } else {
      assert forall k :: 0 <= k < 4 ==> w[k] == WPA1_OUI[k];
    }
  }

  /** In a WPA BSS a vendor element of fewer than five octets makes the access point refuse the request, for some octets
      behind it, if and only if its own octets agree with the start of a WPA or RSN element; all others are ignored, as are
      all short vendor elements in other BSSs. */
  lemma ShortVendorIff(e: Element, wpa: bool)
    requires IsVendor(e) && |e.body| < WINDOW
    ensures (exists w :: CanSee(e.body, w) && KindOf(e, w, wpa) == ShortRsnIe) <==> wpa && Compatible(e.body)
    ensures forall w :: CanSee(e.body, w) && KindOf(e, w, wpa) != ShortRsnIe ==> KindOf(e, w, wpa) == OtherIe
  {
    hide KindOf, Completed;
    forall w | CanSee(e.body, w)
      ensures KindOf(e, w, wpa) == ShortRsnIe ==> wpa && Compatible(e.body)
      ensures KindOf(e, w, wpa) != ShortRsnIe ==> KindOf(e, w, wpa) == OtherIe
    {
      ShortKind(e, w, wpa);
    }
    if wpa && Compatible(e.body) {
      CompletedIs(e.body);
      ShortKind(e, Completed(e.body), wpa);
    }
  }

  /** The octets behind an element matter if and only if it is an ambiguous vendor element in a WPA BSS. */
  lemma ContextIff(e: Element, wpa: bool)
    ensures (forall w :: CanSee(e.body, w) ==> KindOf(e, w, wpa) == OwnKind(e, wpa)) <==> ContextFree(e, wpa)
  {
    hide Completed;
    if |e.body| >= WINDOW {
      forall w | CanSee(e.body, w)
        ensures w == e.body[..WINDOW]
      {
      }
    } else if IsVendor(e) {
      ShortContextIff(e, wpa);
    }
  }

  lemma ShortContextIff(e: Element, wpa: bool)
    requires IsVendor(e) && |e.body| < WINDOW
    ensures (forall w :: CanSee(e.body, w) ==> KindOf(e, w, wpa) == OwnKind(e, wpa)) <==> ContextFree(e, wpa)
  {
    hide KindOf, Completed;
    var f := e.body + seq(WINDOW - |e.body|, _ => 0xff);
    ShortKind(e, f, wpa);
    assert f[4] == 0xff;
    assert f[..4] == WPA1_OUI <==> e.body == WPA1_OUI by {
      if e.body == WPA1_OUI {
        assert f[..4] == e.body;
      } else if |e.body| == 4 {
        assert f[..4] == e.body;
      } else {
        assert f[3] == 0xff;
      }
    }
    forall w | CanSee(e.body, w) && ContextFree(e, wpa)
      ensures KindOf(e, w, wpa) == OwnKind(e, wpa)
    {
      ShortKind(e, w, wpa);
      if e.body == WPA1_OUI {
        assert w[..4] == e.body;
      }
    }
    if !ContextFree(e, wpa) {
      CompletedIs(e.body);
      ShortKind(e, Completed(e.body), wpa);
    }
  }

  // ---------- elements that do not depend on each other ----------

  predicate AllContextFree(es: seq<Element>, wpa: bool) {
    forall e :: e in es ==> ContextFree(e, wpa)
  }

  function OwnItems(es: seq<Element>, wpa: bool): (xs: seq<Item>)
    requires AllSized(es)
    ensures AllApt(xs) && |xs| == |es| && forall i :: 0 <= i < |es| ==> xs[i] == Item(es[i], OwnKind(es[i], wpa))
  {
    if es == [] then [] else [Item(es[0], OwnKind(es[0], wpa))] + OwnItems(es[1..], wpa)
  }

  lemma SeenAlone(e: Element, rest: Bytes, wpa: bool)
    requires ContextFree(e, wpa) && |rest| >= WINDOW
    ensures KindOf(e, (e.body + rest)[..WINDOW], wpa) == OwnKind(e, wpa)
  {
    hide KindOf, OwnKind;
    ContextIff(e, wpa);
    assert CanSee(e.body, (e.body + rest)[..WINDOW]);
  }

  lemma {:induction false} LabelledConcat(a: seq<Element>, b: seq<Element>, behind: Bytes, wpa: bool)
    requires AllSized(a) && AllSized(b) && AllSized(a + b) && AllContextFree(a, wpa) && |behind| >= WINDOW
    ensures Labelled(a + b, behind, wpa) == OwnItems(a, wpa) + Labelled(b, behind, wpa)
    decreases a
  {
    hide KindOf, OwnKind, ContextFree;
    if a == [] {
      assert a + b == b;
      NothingAdded(Labelled(b, behind, wpa));
    } else {
      assert (a + b)[1..] == a[1..] + b;
      SeenAlone(a[0], Print((a + b)[1..]) + behind, wpa);
      LabelledConcat(a[1..], b, behind, wpa);
      Joined([Item(a[0], OwnKind(a[0], wpa))], OwnItems(a[1..], wpa), Labelled(b, behind, wpa));
    }
  }

  /** Of printed elements that do not depend on each other, each counts for what it is by itself. */
  lemma PlainRoundTrip(buf: Bytes, len: nat, isReassoc: bool, wpa: bool, es: seq<Element>)
    requires AllSized(es) && AllContextFree(es, wpa) && Front(isReassoc) <= len && len + WINDOW <= |buf|
    requires buf[Front(isReassoc)..len] == Print(es)
    ensures var xs := OwnItems(es, wpa);
            Parse(buf, len, isReassoc, wpa) == if Acceptable(xs) then Some(Summary(xs)) else None
  {
    hide Parse, Acceptable, Summary, Front, Labelled, OwnItems, Print;
    RoundTrip(buf, len, isReassoc, wpa, es);
    NothingAdded(es);
    LabelledConcat(es, [], buf[len..], wpa);
    NoneLabelled(buf[len..], wpa);
    NothingAdded(OwnItems(es, wpa));
  }

  lemma NoneLabelled(behind: Bytes, wpa: bool)
    requires |behind| >= WINDOW
    ensures AllSized([]) && Labelled([], behind, wpa) == []
  {
  }

  /** An element that is not recognised can stand anywhere behind elements that do not depend on it. */
  lemma UnrecognisedAnywhere(a: seq<Element>, x: Element, b: seq<Element>, behind: Bytes, wpa: bool)
    requires AllSized(a) && Sized(x) && AllSized(b) && |behind| >= WINDOW
    requires AllContextFree(a, wpa) && ContextFree(x, wpa) && OwnKind(x, wpa) == OtherIe
    ensures AllSized(a + [x] + b) && AllSized(a + b)
    ensures Fold(NOTHING, Labelled(a + [x] + b, behind, wpa)) == Fold(NOTHING, Labelled(a + b, behind, wpa))
  {
    hide OwnKind, ContextFree, Labelled, Recognise, Fold, LongEnough, KindOf;
    LabelledConcat(a + [x], b, behind, wpa);
    LabelledConcat(a, b, behind, wpa);
    var own, i, rest := OwnItems(a, wpa), Item(x, OtherIe), Labelled(b, behind, wpa);
    assert OwnItems(a + [x], wpa) == own + [i];
    FoldConcat(NOTHING, own + [i], rest);
    FoldConcat(NOTHING, own, rest);
    FoldSnoc(NOTHING, own, i);
    IgnoredItem(Fold(NOTHING, own).p, i);
  }

  lemma IgnoredItem(p: Request, i: Item)
    requires Apt(i) && i.k == OtherIe
    ensures Recognise(p, i) == Outcome(p, true)
  {
  }

  /** Extended rates that come before the supported rates are lost: exchanging the two changes nothing if and only if there
      are none or there is no room for any. */
  lemma ExtendedRatesLost(xs: seq<Item>, s: Item, x: Item)
    requires s.k == RatesIe && x.k == ExtRatesIe
    ensures RatesIn(xs + [x] + [s]) == RatesIn(xs + [s] + [x])
            <==> x.e.body == [] || |RatesOf(s.e.body)| == MAX_LEN_OF_SUPPORTED_RATES
  {
    hide RatesIn, RatesOf;
    RatesSnoc(xs + [x], s);
    RatesSnoc(xs, s);
    RatesSnoc(xs + [s], x);
    var r := RatesOf(s.e.body);
    if x.e.body != [] && |r| < MAX_LEN_OF_SUPPORTED_RATES {
      assert |Cut(r + x.e.body)| > |r|;
    } else if x.e.body == [] {
      NothingAdded(r);
    } else {
      assert (r + x.e.body)[..MAX_LEN_OF_SUPPORTED_RATES] == r;
    }
  }

  // ---------- what is copied fits its place, or not ----------

  // How many elements the walk looks at.
  function Reached(p: Request, xs: seq<Item>): (n: nat)
    requires AllApt(xs)
    ensures n <= |xs|
    decreases xs
  {
    if xs == [] then 0
    else
      var o := Recognise(p, xs[0]);
      if o.ok then 1 + Reached(o.p, xs[1..]) else 1
  }

  // All RSN elements among the first `n` are short enough for the buffer.
  predicate RsnsFit(xs: seq<Item>, n: nat)
    requires n <= |xs|
  {
    forall i :: 0 <= i < n && xs[i].k == RsnIe ==> |xs[i].e.body| <= MAX_LEN_OF_RSNIE - 2
  }

  lemma RecogniseBounds(p: Request, x: Item)
    requires Apt(x)
    ensures var q := Recognise(p, x).p;
            && (|p.rates| <= MAX_LEN_OF_SUPPORTED_RATES ==> |q.rates| <= MAX_LEN_OF_SUPPORTED_RATES)
            && ((p.ssid != None ==> |p.ssid.value| <= MAX_LEN_OF_SSID) ==> q.ssid != None ==> |q.ssid.value| <= MAX_LEN_OF_SSID)
            && (q.rsnRoom <= MAX_LEN_OF_RSNIE
                <==> p.rsnRoom <= MAX_LEN_OF_RSNIE && (x.k == RsnIe ==> |x.e.body| <= MAX_LEN_OF_RSNIE - 2))
            && (Recognise(p, x).ok ==> p.rsnLen == |p.rsn| % 256 ==> q.rsnLen == |q.rsn| % 256)
            && (|p.rsn| <= p.rsnRoom ==> |q.rsn| <= q.rsnRoom)
  {
  }

  lemma {:induction false} FoldBounds(p: Request, xs: seq<Item>)
    requires AllApt(xs) && |p.rates| <= MAX_LEN_OF_SUPPORTED_RATES && p.rsnLen == |p.rsn| % 256 && |p.rsn| <= p.rsnRoom
    requires p.ssid != None ==> |p.ssid.value| <= MAX_LEN_OF_SSID
    ensures var o := Fold(p, xs);
            && |o.p.rates| <= MAX_LEN_OF_SUPPORTED_RATES && (o.p.ssid != None ==> |o.p.ssid.value| <= MAX_LEN_OF_SSID)
            && (o.p.rsnRoom <= MAX_LEN_OF_RSNIE <==> p.rsnRoom <= MAX_LEN_OF_RSNIE && RsnsFit(xs, Reached(p, xs)))
            && (o.ok ==> o.p.rsnLen == |o.p.rsn| % 256 && Reached(p, xs) == |xs|) && |o.p.rsn| <= o.p.rsnRoom
    decreases xs
  {
    hide Recognise, Apt;
    if xs != [] {
      RecogniseBounds(p, xs[0]);
      var o := Recognise(p, xs[0]);
      if o.ok {
        FoldBounds(o.p, xs[1..]);
        var n := Reached(o.p, xs[1..]);
        assert forall i :: 1 <= i < 1 + n ==> xs[i] == xs[1..][i - 1];
      }
    }
  }

  /** For any octets at all, whether the request is accepted or not, the SSID and the rates fit the places they are copied
      to.  The copies of RSN elements fit their buffer if and only if no RSN element that the walk looks at has a body of
      more than 253 octets; then the length that is recorded in an octet is exact, and it is not exact if the last one is
      longer. */
  lemma AlwaysBounded(buf: Bytes, len: nat, isReassoc: bool, wpa: bool)
    requires len + WINDOW <= |buf|
    ensures var o := Walk(buf, Front(isReassoc), len, NOTHING, wpa); var xs := Items(buf, Front(isReassoc), len, wpa);
            && |o.p.rates| <= MAX_LEN_OF_SUPPORTED_RATES && (o.p.ssid != None ==> |o.p.ssid.value| <= MAX_LEN_OF_SSID)
            && (o.p.rsnRoom <= MAX_LEN_OF_RSNIE <==> RsnsFit(xs, Reached(NOTHING, xs)))
            && (o.ok ==> (o.p.rsnRoom <= MAX_LEN_OF_RSNIE && o.p.rsnLen == |o.p.rsn| <==> RsnsFit(xs, |xs|)))
            && (o.ok ==> (o.p.rsnLen == |o.p.rsn| <==> |o.p.rsn| <= MAX_LEN_OF_RSNIE))
    ensures var r := Parse(buf, len, isReassoc, wpa); r != None ==> r.value.ssid != None && r.value.rated
  {
    hide Walk, Fold, Items, Reached, RsnsFit;
    WalkIsFold(buf, Front(isReassoc), len, NOTHING, wpa);
    FoldBounds(NOTHING, Items(buf, Front(isReassoc), len, wpa));
  }

  // An RSN element with a body of `n` octets.
  function RsnOfLength(n: nat): (e: Element)
    requires MIN_LEN_OF_RSNIE <= n < 256
    ensures Sized(e) && |e.body| == n
  {
    Element(IE_WPA2, [1, 0] + WPA2_OUI + seq(n - 5, _ => 0))
  }

  lemma RsnKind(n: nat)
    requires MIN_LEN_OF_RSNIE <= n < 256
    ensures OwnKind(RsnOfLength(n), true) == RsnIe
  {
    var w := RsnOfLength(n).body[..WINDOW];
    assert w == [1, 0, 0x00, 0x0f, 0xac];
    assert w[..4][0] == 1 && w[..3][0] == 1 && w[2..] == WPA2_OUI;
  }

  function LongRsnRequest(n: nat): (es: seq<Element>)
    requires 253 <= n <= 255
    ensures AllSized(es) && |es| == 3
  {
    [Element(IE_SSID, [0x41]), Element(IE_SUPP_RATES, [0x82]), RsnOfLength(n)]
  }

  lemma LongRsnItems(n: nat)
    requires 253 <= n <= 255
    ensures var es := LongRsnRequest(n); var xs := OwnItems(es, true);
            AllContextFree(es, true) && Three(xs) && |xs| == 3 && |xs[2].e.body| == n
  {
    hide OwnItems;
    RsnKind(n);
    assert |RsnOfLength(n).body| >= WINDOW;
  }

  /** A request in a WPA BSS whose RSN element is as long as an element can be: it is accepted, up to 253 octets the element
      fits, and from 254 on the copy is longer than the buffer and the recorded length starts again from 0. */
  lemma LongRsnExample(n: nat, behind: Bytes)
    requires 253 <= n <= 255 && |behind| >= WINDOW
    ensures var xs := Labelled(LongRsnRequest(n), behind, true);
            && Acceptable(xs) && |Summary(xs).rsn| == Summary(xs).rsnRoom == n + 2
            && Summary(xs).rsnLen == if n == 253 then 255 else n - 254
  {
    hide *;
    var es := LongRsnRequest(n);
    LongRsnItems(n);
    NothingAdded(es);
    NoneLabelled(behind, true);
    LabelledConcat(es, [], behind, true);
    NothingAdded(OwnItems(es, true));
    ThreeItems(OwnItems(es, true));
  }

  predicate Three(xs: seq<Item>) {
    |xs| == 3 && xs[0].k == SsidIe && xs[1].k == RatesIe && xs[2].k == RsnIe && |xs[0].e.body| == 1
  }

  lemma ThreeItems(xs: seq<Item>)
    requires AllApt(xs) && Three(xs)
    ensures Acceptable(xs) && |Summary(xs).rsn| == Summary(xs).rsnRoom == |xs[2].e.body| + 2
    ensures Summary(xs).rsnLen == (|xs[2].e.body| + 2) % 256
  {
    hide Octets, RatesIn, HtIn, ExtCapIn, RalinkIn, LastOf, FirstSsid, LongestRsn, Acceptable;
    ThreeAcceptable(xs);
    assert xs == [] + [xs[0]] + [xs[1]] + [xs[2]];
    LastSnoc([] + [xs[0]] + [xs[1]], xs[2], {RsnIe});
    LongestOfThree(xs[0], xs[1], xs[2]);
  }

  lemma ThreeAcceptable(xs: seq<Item>)
    requires Three(xs)
    ensures Acceptable(xs)
  {
    hide FirstSsid;
    assert xs == [] + [xs[0]] + [xs[1]] + [xs[2]];
    FirstSnoc([] + [xs[0]] + [xs[1]], xs[2]);
    FirstSnoc([] + [xs[0]], xs[1]);
    FirstSnoc([], xs[0]);
    NoneFirst();
    assert xs[0] in xs && xs[1] in xs;
    assert forall x :: x in xs ==> x == xs[0] || x == xs[1] || x == xs[2];
  }

  lemma NoneFirst()
    ensures FirstSsid([]) == None
  {
  }

  lemma LongestOfThree(x: Item, y: Item, z: Item)
    requires x.k != RsnIe && y.k != RsnIe && z.k == RsnIe
    ensures LongestRsn([] + [x] + [y] + [z]) == |z.e.body| + 2
  {
    LongestSnoc([] + [x] + [y], z);
    LongestSnoc([] + [x], y);
    LongestSnoc([], x);
  }

  /** In a WPA BSS a station whose RSN element has 254 octets is not associated, although its request is accepted. */
  lemma LongRsnNotAssociated(buf: Bytes, len: nat, isReassoc: bool, s: Types.Ap, w: nat, f: Steps.AssocFrame)
    requires len + WINDOW <= |buf| && MacTable.Shape(s) && w < |s.entries|
    requires s.bss[s.entries[w].apidx].authMode == Types.AuthWpa
    requires var r := Parse(buf, len, isReassoc, true); r != None && |r.value.rsn| == 256 && f.hasRsn == (r.value.rsnLen != 0)
    ensures !Steps.AssocSucceeds(s, w, f)
  {
    hide Walk, Items, Reached, RsnsFit;
    RecordedLength(buf, len, isReassoc, true);
  }

  lemma RecordedLength(buf: Bytes, len: nat, isReassoc: bool, wpa: bool)
    requires len + WINDOW <= |buf|
    ensures var r := Parse(buf, len, isReassoc, wpa); r != None ==> r.value.rsnLen == |r.value.rsn| % 256
  {
    hide Walk, Fold, Items, Reached, RsnsFit;
    WalkIsFold(buf, Front(isReassoc), len, NOTHING, wpa);
    FoldBounds(NOTHING, Items(buf, Front(isReassoc), len, wpa));
  }

  // ---------- a misleading request ----------

  const MISLEADING: Bytes := [0, 1, 0x41, 1, 1, 0x82, 221, 2, 0x00, 0x50, 0xf2, 1, 0]

  // An SSID, supported rates, a vendor element of two octets, and an unknown element.
  lemma MisleadingIsPrinted()
    ensures MISLEADING == Print([Element(IE_SSID, [0x41]), Element(IE_SUPP_RATES, [0x82]),
                                 Element(IE_VENDOR_SPECIFIC, [0x00, 0x50]), Element(0xf2, [0x00])])
  {
    var es := [Element(IE_SSID, [0x41]), Element(IE_SUPP_RATES, [0x82]),
               Element(IE_VENDOR_SPECIFIC, [0x00, 0x50]), Element(0xf2, [0x00])];
    assert es[1..] == [es[1], es[2], es[3]] && [es[1], es[2], es[3]][1..] == [es[2], es[3]] && [es[2], es[3]][1..] == [es[3]];
    assert Print([es[3]]) == [0xf2, 1, 0];
    assert Octets(es[2]) == [221, 2, 0x00, 0x50];
    assert Print([es[2], es[3]]) == [221, 2, 0x00, 0x50, 0xf2, 1, 0];
    assert Print(es[1..]) == [1, 1, 0x82] + Print([es[2], es[3]]);
  }

  // The octets behind the short vendor element look like the rest of a WPA element: the request is refused, although none
  // of its elements by itself is a reason to.
  lemma ShortVendorExample()
    ensures !Walk(MISLEADING + [0, 0, 0, 0, 0], 0, |MISLEADING|, NOTHING, true).ok
  {
    var buf := MISLEADING + [0, 0, 0, 0, 0];
    var p := NOTHING.(ssid := Some([0x41]));
    var q := p.(rated := true, rates := [0x82]);
    assert buf[2..3] == [0x41] && buf[5..6] == [0x82] && buf[8..10] == [0x00, 0x50];
    assert buf[8..13][..4] == WPA1_OUI;
    assert Walk(buf, 0, 13, NOTHING, true) == Walk(buf, 3, 13, p, true) by {
      assert Recognise(NOTHING, ItemAt(buf, 0, 13, true)) == Outcome(p, true);
    }
    assert Walk(buf, 3, 13, p, true) == Walk(buf, 6, 13, q, true) by {
      assert Recognise(p, ItemAt(buf, 3, 13, true)) == Outcome(q, true);
    }
    assert !Recognise(q, ItemAt(buf, 6, 13, true)).ok;
  }

  // ---------- the request of a station ----------

  /** What a station says: the bodies of its elements, the QoS octet of its WMM element and the flags of its Ralink element.
      The elements are numbered as in section 8.4.2 of IEEE 802.11-2012. */
  datatype Sent = Sent(
    ssid: Bytes,
    rates: Bytes,
    extRates: Option<Bytes>,
    rsn: Option<Bytes>,
    ht: Option<Bytes>,
    extCap: Option<Bytes>,
    qosInfo: Option<Byte>,
    ralinkFlags: Option<Byte>)

  // The bodies have the sizes that the standard gives them, any number of rates is allowed for, and the RSN element is one of
  // version 1.
  predicate Proper(r: Sent) {
    && |r.ssid| <= 32 && |r.rates| < 256
    && (r.extRates != None ==> |r.extRates.value| < 256)
    && (r.rsn != None ==> 18 <= |r.rsn.value| < 256 && r.rsn.value[..5] == [1, 0, 0x00, 0x0f, 0xac])
    && (r.ht != None ==> 26 <= |r.ht.value| < 256)
    && (r.extCap != None ==> 1 <= |r.extCap.value| < 256)
  }

  function Opt(eid: Byte, body: Option<Bytes>): seq<Element> {
    if body == None then [] else [Element(eid, body.value)]
  }

  function WmmBody(q: Option<Byte>): Option<Bytes> {
    if q == None then None else Some([0x00, 0x50, 0xf2, 0x02, 0x00, 0x01, q.value])
  }

  function RalinkBody(flags: Option<Byte>): Option<Bytes> {
    if flags == None then None else Some([0x00, 0x0c, 0x43, flags.value, 0, 0, 0])
  }

  // The elements of the request, in the order of the standard.
  function RequestElements(r: Sent): (es: seq<Element>)
    requires Proper(r)
    ensures AllSized(es)
  {
    [Element(0, r.ssid)] + ([Element(1, r.rates)] + (Opt(50, r.extRates) + (Opt(48, r.rsn) + (Opt(45, r.ht)
    + (Opt(127, r.extCap) + (Opt(221, WmmBody(r.qosInfo)) + Opt(221, RalinkBody(r.ralinkFlags))))))))
  }

  // The eight rates that stand for none or too many.
  const DEFAULT_RATES: Bytes := [0x82, 0x84, 0x8b, 0x96, 0x12, 0x24, 0x48, 0x6c]

  // What the access point should learn.  An RSN element counts in a WPA BSS only.
  function Learnt(r: Sent, wpa: bool): Request
    requires Proper(r)
  {
    var rates := (if 1 <= |r.rates| <= 12 then r.rates else DEFAULT_RATES) + if r.extRates == None then [] else r.extRates.value;
    var rsn := if wpa && r.rsn != None then [48, |r.rsn.value| as Byte] + r.rsn.value else [];
    Request(Some(r.ssid), true,
            if |rates| <= 12 then rates else rates[..12],
            if r.ht == None then None else Some(r.ht.value[..26]),
            if r.extCap == None then None else Some(r.extCap.value[0]),
            if r.ralinkFlags == None then 0 else if r.ralinkFlags.value == 0 then 0xf000_0000 else r.ralinkFlags.value as nat,
            r.qosInfo != None, rsn, |rsn| % 256, |rsn|)
  }

  lemma KindsSent(r: Sent, wpa: bool)
    requires Proper(r)
    ensures OwnKind(Element(0, r.ssid), wpa) == SsidIe && OwnKind(Element(1, r.rates), wpa) == RatesIe
    ensures r.extRates != None ==> OwnKind(Element(50, r.extRates.value), wpa) == ExtRatesIe
    ensures r.ht != None ==> OwnKind(Element(45, r.ht.value), wpa) == HtIe
    ensures r.extCap != None ==> OwnKind(Element(127, r.extCap.value), wpa) == ExtCapIe
  {
  }

  lemma RsnKindSent(body: Bytes, wpa: bool)
    requires 18 <= |body| < 256 && body[..5] == [1, 0, 0x00, 0x0f, 0xac]
    ensures OwnKind(Element(48, body), wpa) == if wpa then RsnIe else OtherIe
  {
    var w := body[..5];
    assert w[..4][0] == 1 && w[..3][0] == 1 && w[2..] == WPA2_OUI;
  }

  lemma VendorKindsSent(q: Byte, wpa: bool)
    ensures OwnKind(Element(221, WmmBody(Some(q)).value), wpa) == WmmIe
    ensures OwnKind(Element(221, RalinkBody(Some(q)).value), wpa) == RalinkIe
  {
    var b, c := WmmBody(Some(q)).value, RalinkBody(Some(q)).value;
    assert b[..5] == [0x00, 0x50, 0xf2, 0x02, 0x00] && c[..5] == [0x00, 0x0c, 0x43, q, 0];
    assert b[..5][..4][3] == 2 && b[..5][..3][1] == 0x50 && b[..6] == WME_INFO_ELEM;
    assert c[..5][..4][1] == 0x0c && c[..5][..3] == RALINK_OUI;
  }

  /** What the access point makes of the other vendor elements of a station: those of WPS say nothing, the draft HT capabilities count
      as HT capabilities, and a WPA element of version 1 counts as an RSN element in a WPA BSS. */
  lemma VendorKinds(rest: Bytes, wpa: bool)
    requires |rest| < 252
    ensures OwnKind(Element(221, [0x00, 0x50, 0xf2, 0x04] + rest), wpa) == OtherIe
    ensures |rest| == 26 ==> OwnKind(Element(221, [0x00, 0x90, 0x4c, 0x33] + rest), wpa) == BroadcomIe
    ensures |rest| >= 14 ==> OwnKind(Element(221, [0x00, 0x50, 0xf2, 0x01] + rest), wpa) == if wpa then RsnIe else OtherIe
  {
    FourOctets(0x00, 0x50, 0xf2, 0x04, rest);
    FourOctets(0x00, 0x90, 0x4c, 0x33, rest);
    FourOctets(0x00, 0x50, 0xf2, 0x01, rest);
    assert WPS_OUI[3] == 0x04 && WPS_OUI[1] == 0x50 && BROADCOM_HTC[1] == 0x90 && RALINK_OUI[1] == 0x0c;
  }

  // The window on a body that starts with four given octets.
  lemma FourOctets(a: Byte, b: Byte, c: Byte, d: Byte, rest: Bytes)
    ensures var body := [a, b, c, d] + rest;
            var w := if |body| >= WINDOW then body[..WINDOW] else body + seq(WINDOW - |body|, _ => 0xff);
            w[..4] == [a, b, c, d] && w[..3] == [a, b, c]
  {
  }

  lemma {:induction false} OwnConcat(a: seq<Element>, b: seq<Element>, wpa: bool)
    requires AllSized(a) && AllSized(b)
    ensures AllSized(a + b) && OwnItems(a + b, wpa) == OwnItems(a, wpa) + OwnItems(b, wpa)
  {
    hide OwnKind;
    if a == [] {
      assert a + b == b;
      NothingAdded(OwnItems(b, wpa));
    } else {
      assert (a + b)[1..] == a[1..] + b;
      OwnConcat(a[1..], b, wpa);
      Joined([Item(a[0], OwnKind(a[0], wpa))], OwnItems(a[1..], wpa), OwnItems(b, wpa));
    }
  }

  // One element that is there or not, and what comes behind it.
  lemma FoldOpt(p: Request, es: seq<Element>, rest: seq<Element>, wpa: bool)
    requires AllSized(es) && AllSized(rest) && |es| <= 1
    ensures AllSized(es + rest)
    ensures es == [] ==> Fold(p, OwnItems(es + rest, wpa)) == Fold(p, OwnItems(rest, wpa))
    ensures es != [] ==>
              var o := Recognise(p, Item(es[0], OwnKind(es[0], wpa)));
              Fold(p, OwnItems(es + rest, wpa)) == if o.ok then Fold(o.p, OwnItems(rest, wpa)) else o
  {
    hide OwnKind, Recognise;
    OwnConcat(es, rest, wpa);
    if es == [] {
      assert es + rest == rest;
    } else {
      assert OwnItems(es + rest, wpa)[1..] == OwnItems(rest, wpa);
    }
  }

  // The elements behind the RSN element.
  function Capabilities(r: Sent): (es: seq<Element>)
    requires Proper(r)
    ensures AllSized(es)
  {
    Opt(45, r.ht) + (Opt(127, r.extCap) + (Opt(221, WmmBody(r.qosInfo)) + Opt(221, RalinkBody(r.ralinkFlags))))
  }

  // The walk over the elements of the request, one after the other.
  lemma FoldSent(r: Sent, wpa: bool)
    requires Proper(r)
    ensures Fold(NOTHING, OwnItems(RequestElements(r), wpa)) == Outcome(Learnt(r, wpa), true)
  {
    hide OwnKind, Fold, OwnItems, Capabilities;
    KindsSent(r, wpa);
    CapabilitiesLast(r);
    var e5 := Capabilities(r);
    var e4 := Opt(48, r.rsn) + e5;
    var e3 := Opt(50, r.extRates) + e4;
    var p1 := NOTHING.(ssid := Some(r.ssid));
    FoldOpt(NOTHING, [Element(0, r.ssid)], [Element(1, r.rates)] + e3, wpa);
    var p2 := p1.(rated := true, rates := RatesOf(r.rates));
    FoldOpt(p1, [Element(1, r.rates)], e3, wpa);
    NothingAdded(p2.rates);
    var p3 := p2.(rates := Learnt(r, wpa).rates);
    FoldOpt(p2, Opt(50, r.extRates), e4, wpa);
    var p4 := p3.(rsn := Learnt(r, wpa).rsn, rsnLen := |Learnt(r, wpa).rsn| % 256, rsnRoom := |Learnt(r, wpa).rsn|);
    FoldOpt(p3, Opt(48, r.rsn), e5, wpa);
    RsnSent(p3, r, wpa);
    CapabilitiesSent(p4, r, wpa);
  }

  lemma CapabilitiesLast(r: Sent)
    requires Proper(r)
    ensures RequestElements(r)
         == [Element(0, r.ssid)] + ([Element(1, r.rates)] + (Opt(50, r.extRates) + (Opt(48, r.rsn) + Capabilities(r))))
  {
    hide Opt, WmmBody, RalinkBody;
  }

  lemma CapabilitiesSent(p: Request, r: Sent, wpa: bool)
    requires Proper(r) && !p.wmm && p.ralink == 0 && p.ht == None && p.extCap == None
    ensures Fold(p, OwnItems(Capabilities(r), wpa))
         == Outcome(p.(ht := Learnt(r, wpa).ht, extCap := Learnt(r, wpa).extCap, wmm := Learnt(r, wpa).wmm,
                       ralink := Learnt(r, wpa).ralink), true)
  {
    hide OwnKind, Fold, OwnItems;
    KindsSent(r, wpa);
    var e7 := Opt(221, WmmBody(r.qosInfo)) + Opt(221, RalinkBody(r.ralinkFlags));
    var p5 := p.(ht := Learnt(r, wpa).ht);
    FoldOpt(p, Opt(45, r.ht), Opt(127, r.extCap) + e7, wpa);
    FoldOpt(p5, Opt(127, r.extCap), e7, wpa);
    TailSent(p5.(extCap := Learnt(r, wpa).extCap), r, wpa);
  }

  lemma RsnSent(p: Request, r: Sent, wpa: bool)
    requires Proper(r) && p.rsn == [] && p.rsnLen == 0 && p.rsnRoom == 0
    ensures r.rsn != None ==>
              var x, rsn := Element(48, r.rsn.value), Learnt(r, wpa).rsn;
              Recognise(p, Item(x, OwnKind(x, wpa))) == Outcome(p.(rsn := rsn, rsnLen := |rsn| % 256, rsnRoom := |rsn|), true)
  {
    hide OwnKind;
    if r.rsn != None {
      RsnKindSent(r.rsn.value, wpa);
    }
  }

  // The two vendor elements at the end.
  lemma TailSent(p: Request, r: Sent, wpa: bool)
    requires Proper(r) && !p.wmm && p.ralink == 0
    ensures var es := Opt(221, WmmBody(r.qosInfo)) + Opt(221, RalinkBody(r.ralinkFlags));
            && AllSized(es)
            && Fold(p, OwnItems(es, wpa)) == Outcome(p.(wmm := Learnt(r, wpa).wmm, ralink := Learnt(r, wpa).ralink), true)
  {
    hide OwnKind, Fold, OwnItems;
    var q := p.(wmm := r.qosInfo != None);
    var last := Opt(221, RalinkBody(r.ralinkFlags));
    if r.qosInfo != None {
      VendorKindsSent(r.qosInfo.value, wpa);
    }
    FoldOpt(p, Opt(221, WmmBody(r.qosInfo)), last, wpa);
    FoldOpt(q, last, [], wpa);
    NothingAdded(last);
    if r.ralinkFlags != None {
      VendorKindsSent(r.ralinkFlags.value, wpa);
    }
    FoldNone(q.(ralink := Learnt(r, wpa).ralink), wpa);
    FoldNone(q, wpa);
  }

  lemma FoldNone(p: Request, wpa: bool)
    ensures AllSized([]) && Fold(p, OwnItems([], wpa)) == Outcome(p, true)
  {
  }

  /** The access point learns from the request of a station exactly what the station says: its SSID, its rates and extended rates
      up to twelve, with eight default rates for none or more than twelve supported ones, and its capabilities; its RSN element
      only if the BSS uses WPA. */
  lemma StationUnderstood(buf: Bytes, len: nat, isReassoc: bool, wpa: bool, r: Sent)
    requires Proper(r) && Front(isReassoc) <= len && len + WINDOW <= |buf|
    requires buf[Front(isReassoc)..len] == Print(RequestElements(r))
    ensures Parse(buf, len, isReassoc, wpa) == Some(Learnt(r, wpa))
  {
    hide Walk, Fold, Items, Labelled, OwnItems, Print, Opt, ContextFree, Front, Learnt;
    var es := RequestElements(r);
    SentContextFree(r, wpa);
    WalkIsFold(buf, Front(isReassoc), len, NOTHING, wpa);
    ItemsPrinted(buf, Front(isReassoc), len, es, wpa);
    NothingAdded(es);
    LabelledConcat(es, [], buf[len..], wpa);
    NoneLabelled(buf[len..], wpa);
    NothingAdded(OwnItems(es, wpa));
    FoldSent(r, wpa);
    LearntMandatory(r, wpa);
  }

  lemma LearntMandatory(r: Sent, wpa: bool)
    requires Proper(r)
    ensures Learnt(r, wpa).ssid != None && Learnt(r, wpa).rated
  {
  }

  lemma SentContextFree(r: Sent, wpa: bool)
    requires Proper(r)
    ensures AllContextFree(RequestElements(r), wpa)
  {
    hide ContextFree, Opt, WmmBody, RalinkBody;
    var e8 := Opt(221, RalinkBody(r.ralinkFlags));
    var e7 := Opt(221, WmmBody(r.qosInfo)) + e8;
    var e6 := Opt(127, r.extCap) + e7;
    var e5 := Opt(45, r.ht) + e6;
    var e4 := Opt(48, r.rsn) + e5;
    VendorBodies(r);
    OptContextFree(221, RalinkBody(r.ralinkFlags), [], wpa);
    NothingAdded(e8);
    OptContextFree(221, WmmBody(r.qosInfo), e8, wpa);
    OptContextFree(127, r.extCap, e7, wpa);
    OptContextFree(45, r.ht, e6, wpa);
    OptContextFree(48, r.rsn, e5, wpa);
    OptContextFree(50, r.extRates, e4, wpa);
    PlainContextFree(Element(0, r.ssid), wpa);
    PlainContextFree(Element(1, r.rates), wpa);
  }

  lemma VendorBodies(r: Sent)
    ensures WmmBody(r.qosInfo) != None ==> |WmmBody(r.qosInfo).value| >= WINDOW
    ensures RalinkBody(r.ralinkFlags) != None ==> |RalinkBody(r.ralinkFlags).value| >= WINDOW
  {
  }

  lemma PlainContextFree(e: Element, wpa: bool)
    requires !IsVendor(e) || |e.body| >= WINDOW
    ensures ContextFree(e, wpa)
  {
  }

  lemma OptContextFree(eid: Byte, body: Option<Bytes>, rest: seq<Element>, wpa: bool)
    requires AllContextFree(rest, wpa) && ((eid != 221 && eid != 48) || (body != None ==> |body.value| >= WINDOW))
    ensures AllContextFree(Opt(eid, body) + rest, wpa)
  {
    hide ContextFree;
    if body != None {
      PlainContextFree(Element(eid, body.value), wpa);
    }
  }
}
