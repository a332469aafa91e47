/** The adapter state shared by the handlers of the access point: the MAC table, the transmit and
    power-save queues, the per-BSS configuration with its TIM bitmap, and the single stored challenge.

    A packet is a value: `no` is its position in the order in which APSendPacket was called, `dest` the
    WCID it was sent to.  The fields `given`, `released` and `hw` of `Ap` are logs that the driver does not
    keep: the packets handed to APSendPacket, the packets passed to RELEASE_NDIS_PACKET and, ring by ring, the
    packets passed to the hardware.  `more` holds the packets whose MoreData bit has been set. */
module Types {

  type Mac = nat            // a six-octet address, compared only for equality
  type Challenge = nat      // 128 octets of challenge text, compared only for equality

  const ZERO_MAC: Mac := 0
  const MAX_LEN_OF_MAC_TABLE := 32
  const MAX_PACKETS_IN_PS_QUEUE := 128
  const MAX_PACKETS_IN_MCAST_PS_QUEUE := 32
  const MAC_TABLE_ASSOC_TIMEOUT := 5
  const HW_BEACON_MAX_NUM := 16
  const WLAN_MAX_NUM_OF_TIM := MAX_LEN_OF_MAC_TABLE / 8 + 1
  const NUM_OF_TX_RING := 4
  const QID_AC_BE := 0
  const MCAST_WCID := 0

  datatype Packet = Packet(no: nat, dest: nat)

  datatype EntryType = EntryNone | EntryClient
  datatype Sst = NotAuth | Auth | Assoc
  datatype PsMode = PwrActive | PwrSave

  // Every mode from Ndis802_11AuthModeWPA upwards is AuthWpa.
  datatype AuthMode = AuthOpen | AuthShared | AuthAutoSwitch | AuthWpa

  datatype Entry = Entry(
    kind: EntryType,
    addr: Mac,
    apidx: nat,
    sst: Sst,
    psMode: PsMode,
    psQueue: seq<Packet>,
    psQIdleCount: nat,
    noDataIdleCount: nat,
    stationKeepAliveCount: nat,
    continueTxFailCnt: nat,
    staIdleTimeout: nat,
    assocDeadLine: nat,
    portSecured: bool,
    ralinkChipset: bool)

  datatype Bss = Bss(
    bssid: Mac,
    authMode: AuthMode,
    ieee8021X: bool,
    portSecured: bool,
    maxStaNum: nat,
    staCount: int,
    stationKeepAliveTime: nat,
    timBitmaps: seq<bv8>,
    policy: nat,
    acl: seq<Mac>)

  datatype Ap = Ap(
    entries: seq<Entry>,
    bss: seq<Bss>,
    txSwQueue: seq<seq<Packet>>,
    mcastPsQueue: seq<Packet>,
    mcastPsQIdleCount: nat,
    fAnyStationInPsm: bool,
    fAllStationAsRalink: bool,
    auxAddr: Mac,
    auxChallenge: Challenge,
    size: int,
    entryClientCount: int,
    staIdleTimeout: nat,
    entryLifeCheck: nat,
    txSwQMaxLen: nat,
    more: set<Packet>,
    given: seq<Packet>,
    released: seq<Packet>,
    hw: seq<seq<Packet>>)

  // The contents of a slot after NdisZeroMemory.
  const ZeroEntry := Entry(EntryNone, ZERO_MAC, 0, NotAuth, PwrActive, [], 0, 0, 0, 0, 0, 0, false, false)

  predicate IsClient(e: Entry) {
    e.kind == EntryClient
  }

  // The station must open its port before ordinary data flows.
  predicate NeedsPort(b: Bss) {
    b.authMode == AuthWpa || b.ieee8021X
  }

  /** NUM_BIT8 of the driver. */
  function NumBit8(k: nat): bv8
    requires k < 8
  {
    if k == 0 then 0x01 else if k == 1 then 0x02 else if k == 2 then 0x04 else if k == 3 then 0x08
    else if k == 4 then 0x10 else if k == 5 then 0x20 else if k == 6 then 0x40 else 0x80
  }

  predicate Bit(b: bv8, k: nat)
    requires k < 8
  {
    b & NumBit8(k) != 0
  }

  /** Bit 0 is the least significant one. */
  lemma BitPlace(b: bv8, k: nat)
    requires k < 8
    ensures Bit(b, k) <==> (b >> k) & 1 == 1
  {
  }

  // AID `i` is marked in the bitmap `t`.
  predicate TimBit(t: seq<bv8>, i: nat)
    requires i / 8 < |t|
  {
    Bit(t[i / 8], i % 8)
  }

  lemma BitOps(b: bv8, k: nat, j: nat)
    requires k < 8 && j < 8
    ensures Bit(b | NumBit8(k), j) <==> j == k || Bit(b, j)
    ensures Bit(b & !NumBit8(k), j) <==> j != k && Bit(b, j)
  {
  }

  /** WLAN_MR_TIM_BIT_SET: marks AID `i` and leaves every other mark alone. */
  function TimBitSet(t: seq<bv8>, i: nat): (r: seq<bv8>)
    requires i / 8 < |t|
    ensures |r| == |t|
    ensures forall j: nat :: j / 8 < |t| ==> (TimBit(r, j) <==> j == i || TimBit(t, j))
  {
    var r := t[i / 8 := t[i / 8] | NumBit8(i % 8)];
    assert forall j: nat :: j / 8 < |t| ==> (TimBit(r, j) <==> j == i || TimBit(t, j)) by {
      forall j: nat | j / 8 < |t|
        ensures TimBit(r, j) <==> j == i || TimBit(t, j)
      {
        BitOps(t[i / 8], i % 8, j % 8);
        assert j == i <==> j / 8 == i / 8 && j % 8 == i % 8;
      }
    }
    r
  }

  /** WLAN_MR_TIM_BIT_CLEAR: unmarks AID `i` and leaves every other mark alone. */
  function TimBitClear(t: seq<bv8>, i: nat): (r: seq<bv8>)
    requires i / 8 < |t|
    ensures |r| == |t|
    ensures forall j: nat :: j / 8 < |t| ==> (TimBit(r, j) <==> j != i && TimBit(t, j))
  {
    var r := t[i / 8 := t[i / 8] & !NumBit8(i % 8)];
    assert forall j: nat :: j / 8 < |t| ==> (TimBit(r, j) <==> j != i && TimBit(t, j)) by {
      forall j: nat | j / 8 < |t|
        ensures TimBit(r, j) <==> j != i && TimBit(t, j)
      {
        BitOps(t[i / 8], i % 8, j % 8);
        assert j == i <==> j / 8 == i / 8 && j % 8 == i % 8;
      }
    }
    r
  }
}
