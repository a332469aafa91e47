/** The traffic indication map of the beacon (ap/ap_connect.c): the DTIM counter, the TIM element written into the
    beacon buffer, and what a station reads out of it by section 7.3.2.6 of IEEE 802.11-1999. */
module TimElement {
  import opened Types
  import opened Arith
  import opened Octets
  import opened MacTable
  import opened Steps
  import opened PowerSave

  const IE_TIM: bv8 := 5
  const MAX_TIM_LEN := 251          // octets of a map of 2008 AIDs

  // ---------- what the scan of the bitmap finds ----------

  /** The first octet at or after `i` that marks a station, or the length of the map. */
  function NextMarked(tim: seq<bv8>, i: nat): (k: nat)
    requires i <= |tim|
    ensures i <= k <= |tim|
    ensures k < |tim| ==> tim[k] != 0
    ensures forall j :: i <= j < k ==> tim[j] == 0
    decreases |tim| - i
  {
    if i == |tim| || tim[i] != 0 then i else NextMarked(tim, i + 1)
  }

  /** The last octet before `n` that marks a station, or 0. */
  function LastMarked(tim: seq<bv8>, n: nat): (k: nat)
    requires 1 <= n <= |tim|
    ensures k < n && (k > 0 ==> tim[k] != 0)
    ensures forall j :: k < j < n ==> tim[j] == 0
  {
    if n == 1 || tim[n - 1] != 0 then n - 1 else LastMarked(tim, n - 1)
  }

  // TimFirst after the scan.  The value 0 means "none yet" to the scan, so octet 0 never ends it.
  function ScanFirst(tim: seq<bv8>): (k: nat)
    requires |tim| >= 1
    ensures k < |tim|
  {
    var k := NextMarked(tim, 1);
    if k == |tim| then 0 else k
  }

  // TimFirst rounded down to an even octet: the first octet of the partial virtual bitmap.
  function Start(tim: seq<bv8>): (k: nat)
    requires |tim| >= 1
    ensures k % 2 == 0 && k <= LastMarked(tim, |tim|)
  {
    ScanFirst(tim) - ScanFirst(tim) % 2
  }

  function WithMulticast(control: bv8, count: nat, octet0: bv8): bv8 {
    if count == 0 then control | (octet0 & 0x01) else control
  }

  // The octets before the map, as first written.
  function Head(tim: seq<bv8>, count: nat, period: nat): (h: seq<bv8>)
    requires 1 <= |tim| <= MAX_TIM_LEN && count < 256 && period < 256
    ensures |h| == 5
  {
    var length := 3 + (LastMarked(tim, |tim|) - Start(tim) + 1);
    [IE_TIM, ToOctet(length), ToOctet(count), ToOctet(period), ToOctet(Start(tim))]
  }

  /** The element in the beacon. */
  function Element(tim: seq<bv8>, count: nat, period: nat): (el: seq<bv8>)
    requires 1 <= |tim| <= MAX_TIM_LEN && count < 256 && period < 256
    ensures |el| == 5 + (LastMarked(tim, |tim|) - Start(tim) + 1)
  {
    var head := Head(tim, count, period);
    head[4 := WithMulticast(head[4], count, tim[0])] + tim[Start(tim)..LastMarked(tim, |tim|) + 1]
  }

  // ---------- what a station reads ----------

  // Bitmap Offset, in octets.
  function BitmapOffset(el: seq<bv8>): nat
    requires |el| >= 5
  {
    Value(el[4] & 0xfe)
  }

  /** The element tells the station with AID `n` that traffic is buffered for it; AID 0 stands for multicast. */
  predicate Reports(el: seq<bv8>, n: nat)
    requires |el| >= 5
  {
    if n == 0 then el[4] & 0x01 != 0
    else
      var k := n / 8 - BitmapOffset(el);
      0 <= k < |el| - 5 && Bit(el[5 + k], n % 8)
  }

  // Octet 0 marks a station but is not part of the element.
  predicate Truncated(tim: seq<bv8>) {
    |tim| > 2 && tim[0] & 0xfe != 0 && tim[1] == 0 && NextMarked(tim, 2) < |tim|
  }

  lemma EvenMask(x: bv8, b: bv8)
    requires x & 1 == 0
    ensures (x | (b & 1)) & 0xfe == x && (x | (b & 1)) & 1 == b & 1 && x & 0xfe == x && (x | 0) == x
  {
  }

  lemma LowBits(x: bv8, k: nat)
    requires k < 8
    ensures k >= 1 && Bit(x, k) ==> x & 0xfe != 0
    ensures Bit(x, 0) <==> x & 0x01 != 0
    ensures x == 0 ==> !Bit(x, k)
  {
  }

  lemma ElementOffset(tim: seq<bv8>, count: nat, period: nat)
    requires 1 <= |tim| <= MAX_TIM_LEN && count < 256 && period < 256
    ensures BitmapOffset(Element(tim, count, period)) == Start(tim)
    ensures Element(tim, count, period)[4] & 0x01 == if count == 0 then tim[0] & 0x01 else 0
  {
    hide ToOctet, Value;
    EvenOctet(Start(tim));
    ValueToOctet(Start(tim));
    EvenMask(ToOctet(Start(tim)), tim[0]);
  }

  // The octets outside the element mark nobody, except octet 0 of a truncated map.
  lemma OutsideUnmarked(tim: seq<bv8>, k: nat)
    requires 1 <= |tim| && k < |tim| && (k < Start(tim) || k > LastMarked(tim, |tim|))
    ensures k > 0 ==> tim[k] == 0
    ensures k == 0 ==> |tim| > 2 && tim[1] == 0 && NextMarked(tim, 2) < |tim|
  {
    var f := NextMarked(tim, 1);
    if k < Start(tim) {
      assert f >= 2 && f < |tim|;
    }
  }

  lemma TruncatedStart(tim: seq<bv8>)
    requires |tim| >= 1 && Truncated(tim)
    ensures Start(tim) > 0
  {
    assert NextMarked(tim, 1) == NextMarked(tim, 2);
  }

  lemma HeadOctets(tim: seq<bv8>, count: nat, period: nat)
    requires 1 <= |tim| <= MAX_TIM_LEN && count < 256 && period < 256
    ensures var el := Element(tim, count, period);
            && |el| == 2 + Value(el[1]) && el[0] == IE_TIM && Value(el[2]) == count && Value(el[3]) == period
            && BitmapOffset(el) % 2 == 0
  {
    ElementOffset(tim, count, period);
    ValueToOctet(count);
    ValueToOctet(period);
    ValueToOctet(3 + (LastMarked(tim, |tim|) - Start(tim) + 1));
  }

  lemma StationReported(tim: seq<bv8>, count: nat, period: nat, n: nat)
    requires 1 <= |tim| <= MAX_TIM_LEN && count < 256 && period < 256 && n >= 1
    ensures Reports(Element(tim, count, period), n) <==> n < 8 * |tim| && TimBit(tim, n) && !(n < 8 && Truncated(tim))
  {
    var el := Element(tim, count, period);
    var k := n / 8;
    ElementOffset(tim, count, period);
    if Truncated(tim) {
      TruncatedStart(tim);
    }
    if Start(tim) <= k <= LastMarked(tim, |tim|) {
      assert el[5 + k - Start(tim)] == tim[k];
    } else if k < |tim| {
      OutsideUnmarked(tim, k);
      LowBits(tim[k], n % 8);
    }
  }

  /** Decoding the emitted element gives back the bitmap, for a map of any length: an AID is reported exactly when it
      is marked, except that AIDs 1 to 7 are lost exactly when the map is truncated; multicast is reported only in a
      beacon that is a DTIM.  The offset is even and the length octet counts the octets that follow it. */
  lemma RoundTrip(tim: seq<bv8>, count: nat, period: nat, n: nat)
    requires 1 <= |tim| <= MAX_TIM_LEN && count < 256 && period < 256
    ensures var el := Element(tim, count, period);
            && |el| == 2 + Value(el[1]) && el[0] == IE_TIM && Value(el[2]) == count && Value(el[3]) == period
            && BitmapOffset(el) % 2 == 0
            && (n >= 1 ==> (Reports(el, n) <==> n < 8 * |tim| && TimBit(tim, n) && !(n < 8 && Truncated(tim))))
            && (n == 0 ==> (Reports(el, n) <==> count == 0 && TimBit(tim, 0)))
  {
    HeadOctets(tim, count, period);
    ElementOffset(tim, count, period);
    LowBits(tim[0], 0);
    LowBits(0, 0);
    if n >= 1 {
      StationReported(tim, count, period, n);
    }
    hide Element, Truncated, BitmapOffset, Value;
  }

  /** The element is faithful to the whole map if and only if the map is not truncated. */
  lemma FaithfulIff(tim: seq<bv8>, count: nat, period: nat)
    requires 1 <= |tim| <= MAX_TIM_LEN && count < 256 && period < 256
    ensures (forall n :: 1 <= n < 8 * |tim| ==> (Reports(Element(tim, count, period), n) <==> TimBit(tim, n)))
            <==> !Truncated(tim)
  {
    forall n | 1 <= n < 8 * |tim|
      ensures Reports(Element(tim, count, period), n) <==> TimBit(tim, n) && !(n < 8 && Truncated(tim))
    {
      RoundTrip(tim, count, period, n);
    }
    if Truncated(tim) {
      var n := SomeBit(tim[0]);
      assert TimBit(tim, n);
    }
  }

  lemma SomeBit(x: bv8) returns (k: nat)
    requires x & 0xfe != 0
    ensures 1 <= k < 8 && Bit(x, k)
  {
    k := if Bit(x, 1) then 1 else if Bit(x, 2) then 2 else if Bit(x, 3) then 3 else if Bit(x, 4) then 4
         else if Bit(x, 5) then 5 else if Bit(x, 6) then 6 else 7;
  }

  // Stations 1 and 16 have packets buffered, but the beacon tells only station 16.
  lemma TruncatedExample()
    ensures var tim: seq<bv8> := [0x02, 0x00, 0x01, 0x00, 0x00];
            && TimBit(tim, 1) && TimBit(tim, 16)
            && !Reports(Element(tim, 1, 3), 1) && Reports(Element(tim, 1, 3), 16)
  {
    hide Reports, Element;
    var tim: seq<bv8> := [0x02, 0x00, 0x01, 0x00, 0x00];
    assert NextMarked(tim, 2) == 2;
    RoundTrip(tim, 1, 3, 1);
    RoundTrip(tim, 1, 3, 16);
  }

  /** When nothing is lost, the element is as short as section 7.3.2.6 of IEEE 802.11-1999 asks: it starts at the
      largest even octet before which no station is marked, and ends at the last marked octet. */
  lemma Shortest(tim: seq<bv8>, m: nat)
    requires 1 <= |tim| && !Truncated(tim) && Start(tim) < m <= LastMarked(tim, |tim|) && m % 2 == 0
    ensures exists k :: 0 <= k < m && (if k == 0 then tim[0] & 0xfe != 0 else tim[k] != 0)
  {
    var f := ScanFirst(tim);
    if f > 0 {
      assert f < m;
      assert tim[f] != 0;
    }
  }

  /** In every reachable state, the beacon of its BSS announces the packets of a station if and only if its AID is
      above 7 or the map is not truncated. */
  lemma BeaconAnnounces(s0: Ap, es: seq<Event>, w: nat, count: nat, period: nat)
    requires Init(s0) && Run(s0, es) && w < MAX_LEN_OF_MAC_TABLE && count < 256 && period < 256
    requires Exec(s0, es).entries[w].psQueue != []
    ensures var s := Exec(s0, es); var tim := s.bss[s.entries[w].apidx].timBitmaps;
            Reports(Element(tim, count, period), w) <==> w >= 8 || !Truncated(tim)
  {
    TimAgreement(s0, es, w);
    var s := Exec(s0, es);
    RoundTrip(s.bss[s.entries[w].apidx].timBitmaps, count, period, w);
  }

  // ---------- the DTIM counter ----------

  // DtimCount is an octet.
  function NextDtimCount(count: nat, period: nat): nat
    requires count < 256 && period < 256
  {
    if count == 0 then (period + 255) % 256 else count - 1
  }

  function DtimCountAfter(count: nat, period: nat, k: nat): (c: nat)
    requires count < 256 && period < 256
    ensures c < 256
  {
    if k == 0 then count else NextDtimCount(DtimCountAfter(count, period, k - 1), period)
  }

  // What DtimCount is after `k` beacons.
  function DtimCountAt(count: nat, period: nat, k: nat): int
    requires 1 <= period
  {
    if k <= count then count - k else period - 1 - (k - count - 1) % period
  }

  lemma NextMod(m: nat, p: nat)
    requires p >= 1
    ensures (m + 1) % p == if m % p == p - 1 then 0 else m % p + 1
  {
    if m % p == p - 1 {
      DivModUnique(m + 1, m / p + 1, 0, p);
    } else {
      DivModUnique(m + 1, m / p, m % p + 1, p);
    }
  }

  /** From any counter value and for any period but 0, the beacons are DTIMs exactly at distance `period`: the
      counter reaches 0 after `count` beacons and again after every `period` beacons. */
  lemma {:induction false} DtimEveryPeriod(count: nat, period: nat, k: nat)
    requires count < 256 && 1 <= period < 256
    ensures DtimCountAfter(count, period, k) == DtimCountAt(count, period, k)
    ensures DtimCountAfter(count, period, k) == 0 <==> k >= count && (k - count) % period == 0
  {
    if k > 0 {
      DtimEveryPeriod(count, period, k - 1);
      if k > count + 1 {
        NextMod(k - count - 2, period);
      }
      if k > count {
        NextMod(k - count - 1, period);
      }
    }
  }

  // ---------- the beacon of one BSS ----------

  class Beacon {
    const frame: array<bv8>
    const tim: array<bv8>
    const location: nat
    var dtimCount: nat
    var dtimPeriod: nat

    ghost predicate Valid()
      reads this
    {
      && frame != tim
      && 1 <= tim.Length <= MAX_TIM_LEN && location + 5 + tim.Length <= frame.Length
      && dtimCount < 256 && dtimPeriod < 256
    }

    constructor (frame: array<bv8>, tim: array<bv8>, location: nat, dtimPeriod: nat)
      requires frame != tim && 1 <= tim.Length <= MAX_TIM_LEN && location + 5 + tim.Length <= frame.Length
      requires dtimPeriod < 256
      ensures Valid() && this.frame == frame && this.tim == tim && this.location == location
      ensures this.dtimPeriod == dtimPeriod && dtimCount == 0
    {
      this.frame, this.tim, this.location := frame, tim, location;
      this.dtimCount, this.dtimPeriod := 0, dtimPeriod;
    }

    /** The counter part of APUpdateAllBeaconFrame. */
    method CountDown()
      requires Valid()
      modifies this`dtimCount
      ensures Valid() && dtimCount == NextDtimCount(old(dtimCount), dtimPeriod)
    {
      if dtimCount == 0 {
        dtimCount := (dtimPeriod + 255) % 256;
      } else {
        dtimCount := dtimCount - 1;
      }
    }

    /** The first loop, and the rounding of TimFirst to an even octet. */
    method Scan() returns (timFirst: nat, timLast: nat)
      requires Valid()
      ensures timFirst == Start(tim[..]) && timLast == LastMarked(tim[..], tim.Length)
    {
      timFirst, timLast := 0, 0;
      ghost var t := tim[..];
      for i := 0 to tim.Length
        invariant timFirst == if i <= 1 || NextMarked(t, 1) >= i then 0 else NextMarked(t, 1)
        invariant timLast == if i == 0 then 0 else LastMarked(t, i)
      {
        var octet := if i == 0 then tim[i] & 0xfe else tim[i];
        if octet != 0 {
          if timFirst == 0 {
            timFirst := i;
          }
          timLast := i;
        }
      }
      if timFirst % 2 == 1 {
        timFirst := timFirst - 1;
      }
    }

    /** The five octets before the map, without the multicast bit. */
    method WriteHead(first: nat, last: nat)
      requires Valid() && first == Start(tim[..]) && last == LastMarked(tim[..], tim.Length)
      modifies frame
      ensures Patched(old(frame[..]), frame[..], location, Head(tim[..], dtimCount, dtimPeriod))
    {
      hide ToOctet, LastMarked, Start;
      frame[location], frame[location + 2], frame[location + 3] := IE_TIM, ToOctet(dtimCount), ToOctet(dtimPeriod);
      frame[location + 1], frame[location + 4] := ToOctet(3 + (last - first + 1)), ToOctet(first);
    }

    /** The second loop: copies the octets `first` to `last` of the map behind the head of the element. */
    method CopyMap(first: nat, last: nat)
      requires Valid() && first <= last < tim.Length
      modifies frame
      ensures Patched(old(frame[..]), frame[..], location + 5, tim[first..last + 1])
    {
      for i := first to last + 1
        invariant forall j :: 0 <= j < location + 5 || location + 5 + i - first <= j < frame.Length ==> frame[j] == old(frame[j])
        invariant forall j :: location + 5 <= j < location + 5 + i - first ==> frame[j] == tim[j - location - 5 + first]
      {
        frame[location + 5 + i - first] := tim[i];
      }
    }

    /** Bit 0 of the bitmap control announces multicast in a DTIM. */
    method AddMulticastBit()
      requires Valid()
      modifies frame
      ensures Patched(old(frame[..]), frame[..], location + 4, [WithMulticast(old(frame[location + 4]), dtimCount, tim[0])])
    {
      if dtimCount == 0 {
        frame[location + 4] := frame[location + 4] | (tim[0] & 0x01);
      }
    }

    /** Step 2 of APUpdateBeaconFrame: writes the TIM element into the frame, and returns the frame length advanced by
        the length of the element.  Nothing else in the frame changes. */
    method UpdateTim(frameLen: nat) returns (len: nat)
      requires Valid()
      modifies frame
      ensures Valid() && Patched(old(frame[..]), frame[..], location, Element(tim[..], dtimCount, dtimPeriod))
      ensures len == frameLen + |Element(tim[..], dtimCount, dtimPeriod)|
    {
      hide Patched, ToOctet, LastMarked, Start, Head, WithMulticast;
      ghost var t, f0 := tim[..], frame[..];
      var timFirst, timLast := Scan();
      WriteHead(timFirst, timLast);
      ghost var f1 := frame[..];
      CopyMap(timFirst, timLast);
      ghost var f2 := frame[..];
      AddMulticastBit();
      len := frameLen + (2 + (3 + (timLast - timFirst + 1)));
      PatchedThrice(f0, f1, f2, frame[..], location, Head(t, dtimCount, dtimPeriod), t[timFirst..timLast + 1],
                    WithMulticast(f2[location + 4], dtimCount, t[0]));
    }
  }

  // `now` is `was` with `el` written at `at`.
  ghost predicate Patched(was: seq<bv8>, now: seq<bv8>, at: nat, el: seq<bv8>) {
    && |now| == |was| && at + |el| <= |was|
    && (forall j :: 0 <= j < |was| && !(at <= j < at + |el|) ==> now[j] == was[j])
    && (forall j :: at <= j < at + |el| ==> now[j] == el[j - at])
  }

  // Three writes, the last one over the last octet of the first.
  lemma PatchedThrice(f0: seq<bv8>, f1: seq<bv8>, f2: seq<bv8>, f3: seq<bv8>, at: nat, head: seq<bv8>, octets: seq<bv8>, c: bv8)
    requires |head| == 5 && Patched(f0, f1, at, head) && Patched(f1, f2, at + 5, octets) && Patched(f2, f3, at + 4, [c])
    ensures Patched(f0, f3, at, head[4 := c] + octets) && f2[at + 4] == head[4]
  {
    var el := head[4 := c] + octets;
    assert f2[at + 4] == f1[at + 4] == head[4];
    forall j | at <= j < at + |el|
      ensures f3[j] == el[j - at]
    {
      if j < at + 4 {
        assert f3[j] == f2[j] == f1[j] == head[j - at];
      } else if j > at + 4 {
        assert f3[j] == f2[j] == octets[j - (at + 5)];
      }
    }
  }
}
