/** Automatic channel selection by false CCA counts (ap/ap_autoChSel.c): the dirtyness every scanned BSS gives to the
    channels, and the choice of the cleanest channel. */
module ChannelSel {
  import opened Arith

  const MAX_NUM_OF_CHANNELS := 54
  const RSSI_TO_DBM_OFFSET := 120
  const CCA_THRESHOLD := 100
  const MAX_LEN_OF_BSS_TABLE := 64
  const EXTCHA_ABOVE := 1
  const EXTCHA_BELOW := 3

  datatype BssEntry = BssEntry(channel: nat, extChOffset: nat, rssi: int)

  /** What the selection knows.  `channels` is the whole array behind ChannelList, of which `listNum` entries are used;
      `accepted` marks the channels whose busy time passes, `avoided` those that radar excludes from the last resort. */
  datatype Scan = Scan(
    channels: seq<nat>,
    listNum: nat,
    isABand: bool,
    bw40: bool,
    skipList: seq<nat>,
    accepted: seq<bool>,
    avoided: seq<bool>,
    falseCca: seq<nat>)

  predicate Shape(c: Scan) {
    && 1 <= c.listNum < MAX_NUM_OF_CHANNELS && |c.channels| == MAX_NUM_OF_CHANNELS
    && |c.accepted| == |c.avoided| == |c.falseCca| == c.listNum
    && forall i :: 0 <= i < c.listNum ==> c.falseCca[i] < 65536
  }

  // ---------- what one BSS contributes ----------

  /** GetChIdx: the first place of the channel in the list, or the length of the list. */
  function ChIdxFrom(c: Scan, channel: nat, i: nat): (k: nat)
    requires Shape(c) && i <= c.listNum
    ensures i <= k <= c.listNum
    ensures k < c.listNum ==> c.channels[k] == channel
    ensures forall j :: i <= j < k ==> c.channels[j] != channel
    decreases c.listNum - i
  {
    if i == c.listNum || c.channels[i] == channel then i else ChIdxFrom(c, channel, i + 1)
  }

  function ChIdx(c: Scan, b: BssEntry): (k: nat)
    requires Shape(c)
    ensures k <= c.listNum
  {
    ChIdxFrom(c, b.channel, 0)
  }

  // The mark of the skip list on place `i`: only the first place of a channel is marked.
  predicate Skipped(c: Scan, i: nat)
    requires Shape(c) && i < c.listNum
  {
    c.channels[i] in c.skipList && ChIdxFrom(c, c.channels[i], 0) == i
  }

  function SignalWeight(rssi: int): nat {
    if rssi >= RSSI_TO_DBM_OFFSET - 50 then 50 else if rssi <= RSSI_TO_DBM_OFFSET - 80 then 30 else 40
  }

  function BelowBound(c: Scan, b: BssEntry): nat {
    if b.extChOffset == EXTCHA_BELOW then (if c.isABand then 2 else 8) else (if c.isABand then 1 else 4)
  }

  function AboveBound(c: Scan, b: BssEntry): nat {
    if b.extChOffset == EXTCHA_ABOVE then (if c.isABand then 2 else 8) else (if c.isABand then 1 else 4)
  }

  // Channels `j - 1` and `j` are at most 20 MHz apart.
  predicate Near(c: Scan, j: nat)
    requires Shape(c) && 1 <= j < MAX_NUM_OF_CHANNELS
  {
    c.channels[j] <= c.channels[j - 1] + 4
  }

  // No gap lies between `i` and `j`.
  predicate Connected(c: Scan, i: nat, j: nat)
    requires Shape(c) && i <= j < MAX_NUM_OF_CHANNELS
  {
    forall k :: i < k <= j ==> Near(c, k)
  }

  /** What the BSS adds to the dirtyness of channel `j`.  Going up the driver stops at a gap; going down it only leaves
      out the channel below the gap. */
  function Weight(c: Scan, b: BssEntry, j: nat): nat
    requires Shape(c) && j < MAX_NUM_OF_CHANNELS
  {
    var i := ChIdx(c, b);
    if j == i then SignalWeight(b.rssi) + 40
    else if i < j then (if j <= i + AboveBound(c, b) && Connected(c, i, j) then (9 - (j - i)) * 4 else 0)
    else if i - j <= BelowBound(c, b) && Near(c, j + 1) then (9 - (i - j)) * 4 else 0
  }

  // ---------- when a BSS dirties only its own surroundings ----------

  predicate Listed(c: Scan, b: BssEntry)
    requires Shape(c)
  {
    ChIdx(c, b) < c.listNum
  }

  // No gap lies between `i` and `j`, whichever comes first.
  predicate Linked(c: Scan, i: nat, j: nat)
    requires Shape(c) && i < MAX_NUM_OF_CHANNELS && j < MAX_NUM_OF_CHANNELS
  {
    if i <= j then Connected(c, i, j) else Connected(c, j, i)
  }

  // Every listed channel that the BSS dirties is joined to the channel of the BSS without a gap.
  predicate Local(c: Scan, b: BssEntry)
    requires Shape(c)
  {
    forall j :: 0 <= j < c.listNum && Weight(c, b, j) > 0 ==> Listed(c, b) && Linked(c, ChIdx(c, b), j)
  }

  /** What the BSS would add if going down stopped at a gap as going up does, and an unlisted channel did not count. */
  function Ideal(c: Scan, b: BssEntry, j: nat): nat
    requires Shape(c) && j < c.listNum
  {
    var i := ChIdx(c, b);
    if !Listed(c, b) then 0
    else if j == i then SignalWeight(b.rssi) + 40
    else if i < j then (if j <= i + AboveBound(c, b) && Linked(c, i, j) then (9 - (j - i)) * 4 else 0)
    else if i - j <= BelowBound(c, b) && Linked(c, i, j) then (9 - (i - j)) * 4 else 0
  }

  // Channels `j` and `j + 1` are near.
  predicate NearPair(c: Scan, j: nat)
    requires Shape(c) && j + 1 < MAX_NUM_OF_CHANNELS
  {
    Near(c, j + 1)
  }

  // Below the channel of the BSS and within its bound, a near pair of channels lies beyond a gap.
  predicate NearBeyondGap(c: Scan, b: BssEntry)
    requires Shape(c)
  {
    exists j, k :: 0 <= j && ChIdx(c, b) - BelowBound(c, b) <= j && j + 1 < k <= ChIdx(c, b) && NearPair(c, j) && !Near(c, k)
  }

  // A pair of channels at the end of the list is near, the last one perhaps with the entry behind it.
  predicate NearAtEnd(c: Scan, b: BssEntry)
    requires Shape(c)
  {
    exists j :: 0 <= j && c.listNum - BelowBound(c, b) <= j < c.listNum && NearPair(c, j)
  }

  // Going down, a gap makes the difference.
  lemma BelowLinked(c: Scan, b: BssEntry, j: nat)
    requires Shape(c) && j < ChIdx(c, b) && ChIdx(c, b) - j <= BelowBound(c, b) && Near(c, j + 1) && !NearBeyondGap(c, b)
    ensures Linked(c, ChIdx(c, b), j)
  {
    hide Near, BelowBound, ChIdx;
    assert NearPair(c, j);
  }

  lemma GapIsNotLocal(c: Scan, b: BssEntry)
    requires Shape(c) && Listed(c, b) && NearBeyondGap(c, b)
    ensures exists j :: 0 <= j < c.listNum && Weight(c, b, j) > 0 && Ideal(c, b, j) == 0 && !Linked(c, ChIdx(c, b), j)
  {
    hide Near, ChIdx;
    var j, k :| 0 <= j && ChIdx(c, b) - BelowBound(c, b) <= j && j + 1 < k <= ChIdx(c, b) && NearPair(c, j) && !Near(c, k);
    assert Weight(c, b, j) > 0 && !Linked(c, ChIdx(c, b), j);
  }

  lemma LocalIsIdeal(c: Scan, b: BssEntry, j: nat)
    requires Shape(c) && j < c.listNum && Local(c, b)
    ensures Weight(c, b, j) == Ideal(c, b, j)
  {
    hide Near, ChIdx;
    var i := ChIdx(c, b);
    if j < i && Listed(c, b) && Linked(c, i, j) {
      assert Near(c, j + 1);
    }
  }

  /** For every list of channels and every scanned BSS: the BSS dirties only listed channels that are joined to its own
      without a gap, and each by the weight it should have, if and only if its channel is listed and no near pair lies
      beyond a gap below it, or it is not listed and no pair at the end of the list is near. */
  lemma LocalIff(c: Scan, b: BssEntry)
    requires Shape(c)
    ensures Local(c, b) <==> if Listed(c, b) then !NearBeyondGap(c, b) else !NearAtEnd(c, b)
    ensures Local(c, b) <==> forall j :: 0 <= j < c.listNum ==> Weight(c, b, j) == Ideal(c, b, j)
  {
    if Listed(c, b) {
      ListedIff(c, b);
    } else {
      UnlistedIff(c, b);
    }
    if Local(c, b) {
      forall j | 0 <= j < c.listNum
        ensures Weight(c, b, j) == Ideal(c, b, j)
      {
        LocalIsIdeal(c, b, j);
      }
    }
  }

  lemma ListedIff(c: Scan, b: BssEntry)
    requires Shape(c) && Listed(c, b)
    ensures Local(c, b) <==> !NearBeyondGap(c, b)
    ensures (forall j :: 0 <= j < c.listNum ==> Weight(c, b, j) == Ideal(c, b, j)) ==> Local(c, b)
  {
    hide Near, ChIdx, NearBeyondGap, BelowBound, AboveBound;
    if NearBeyondGap(c, b) {
      GapIsNotLocal(c, b);
    } else {
      forall j | 0 <= j < c.listNum && Weight(c, b, j) > 0
        ensures Linked(c, ChIdx(c, b), j)
      {
        if j < ChIdx(c, b) {
          BelowLinked(c, b, j);
        }
      }
    }
  }

  lemma UnlistedIff(c: Scan, b: BssEntry)
    requires Shape(c) && !Listed(c, b)
    ensures Local(c, b) <==> !NearAtEnd(c, b)
    ensures (forall j :: 0 <= j < c.listNum ==> Weight(c, b, j) == Ideal(c, b, j)) ==> Local(c, b)
  {
    hide Near, ChIdx;
    assert ChIdx(c, b) == c.listNum;
    if NearAtEnd(c, b) {
      var j :| 0 <= j && c.listNum - BelowBound(c, b) <= j < c.listNum && NearPair(c, j);
      assert Weight(c, b, j) > 0;
    } else {
      forall j | 0 <= j < c.listNum
        ensures Weight(c, b, j) == 0
      {
        assert j >= c.listNum - BelowBound(c, b) ==> !NearPair(c, j);
      }
    }
  }

  /** In the 5 GHz band the only failing BSS on a listed channel is a 40 MHz one whose second half lies below, with a gap just
      below its channel and a near pair beyond it. */
  lemma LocalIffABand(c: Scan, b: BssEntry)
    requires Shape(c) && c.isABand && Listed(c, b)
    ensures var i := ChIdx(c, b);
            Local(c, b) <==> !(b.extChOffset == EXTCHA_BELOW && i >= 2 && !Near(c, i) && Near(c, i - 1))
  {
    hide Near, ChIdx, Local;
    ListedIff(c, b);
    var i := ChIdx(c, b);
    if b.extChOffset == EXTCHA_BELOW && i >= 2 && !Near(c, i) && Near(c, i - 1) {
      assert NearPair(c, i - 2);
    }
  }

  /** A BSS on a channel that is not listed counts as standing behind the last listed channel: with an empty entry there
      it always dirties the end of the list, however far away its own channel is. */
  lemma UnlistedBss(c: Scan, b: BssEntry)
    requires Shape(c) && forall i :: 0 <= i < c.listNum ==> c.channels[i] != b.channel
    requires c.channels[c.listNum] == 0
    ensures Weight(c, b, c.listNum - 1) == 32 && !Local(c, b)
  {
    assert ChIdx(c, b) == c.listNum;
  }

  /** Below a gap the driver goes on: in the 5 GHz band a 40 MHz BSS whose second half lies below dirties the channel
      beyond the gap and not the one at the gap, while nothing beyond a gap above is dirtied. */
  lemma GapBelow(c: Scan, b: BssEntry, i: nat)
    requires Shape(c) && i == ChIdx(c, b) && 2 <= i < c.listNum && c.isABand && b.extChOffset == EXTCHA_BELOW
    requires !Near(c, i) && Near(c, i - 1)
    ensures Weight(c, b, i - 1) == 0 && Weight(c, b, i - 2) == 28 && !Local(c, b)
    ensures forall j, k :: i < k <= j < MAX_NUM_OF_CHANNELS && !Near(c, k) ==> Weight(c, b, j) == 0
  {
    LocalIffABand(c, b);
  }

  function Dirtyness(c: Scan, tab: seq<BssEntry>, j: nat): nat
    requires Shape(c) && j < MAX_NUM_OF_CHANNELS
  {
    if tab == [] then 0 else Dirtyness(c, tab[..|tab| - 1], j) + Weight(c, tab[|tab| - 1], j)
  }

  // ---------- the order of the scan results ----------

  lemma {:induction false} DirtynessRemove(c: Scan, tab: seq<BssEntry>, k: nat, j: nat)
    requires Shape(c) && j < MAX_NUM_OF_CHANNELS && k < |tab|
    ensures Dirtyness(c, tab, j) == Dirtyness(c, tab[..k] + tab[k + 1..], j) + Weight(c, tab[k], j)
    decreases |tab|
  {
    hide Weight;
    var n := |tab| - 1;
    if k == n {
      assert tab[..k] + tab[k + 1..] == tab[..n];
    } else {
      DirtynessRemove(c, tab[..n], k, j);
      var rest := tab[..k] + tab[k + 1..];
      assert rest[..|rest| - 1] == tab[..n][..k] + tab[..n][k + 1..];
    }
  }

  lemma Without(tab: seq<BssEntry>, k: nat)
    requires k < |tab|
    ensures multiset(tab[..k] + tab[k + 1..]) == multiset(tab) - multiset{tab[k]}
  {
    assert tab == tab[..k] + ([tab[k]] + tab[k + 1..]);
  }

  lemma {:induction false} DirtynessPermuted(c: Scan, tab: seq<BssEntry>, tab': seq<BssEntry>, j: nat)
    requires Shape(c) && j < MAX_NUM_OF_CHANNELS && multiset(tab) == multiset(tab')
    ensures Dirtyness(c, tab, j) == Dirtyness(c, tab', j)
    decreases |tab|
  {
    hide Weight;
    if tab == [] {
      assert |multiset(tab')| == 0;
    } else {
      var n := |tab| - 1;
      var b := tab[n];
      assert b in multiset(tab');
      var k :| 0 <= k < |tab'| && tab'[k] == b;
      var rest := tab'[..k] + tab'[k + 1..];
      Without(tab, n);
      Without(tab', k);
      assert tab[..n] + tab[n + 1..] == tab[..n];
      DirtynessPermuted(c, tab[..n], rest, j);
      DirtynessRemove(c, tab', k, j);
    }
  }

  lemma {:induction false} DirtynessBound(c: Scan, tab: seq<BssEntry>, j: nat)
    requires Shape(c) && j < MAX_NUM_OF_CHANNELS
    ensures Dirtyness(c, tab, j) <= 90 * |tab|
  {
    if tab != [] {
      DirtynessBound(c, tab[..|tab| - 1], j);
    }
  }

  // ---------- the choice ----------

  /** GetABandChOffset: the place of the other half of a 40 MHz channel. */
  function ABandChOffset(channel: nat): (k: int)
    ensures -1 <= k <= 1
  {
    if channel in {36, 44, 52, 60, 100, 108, 116, 124, 132, 149, 157} then 1
    else if channel in {40, 48, 56, 64, 104, 112, 120, 128, 136, 153, 161} then -1
    else 0
  }

  // A 40 MHz channel in the 5 GHz band has another half.
  predicate WideEnough(c: Scan, i: nat)
    requires Shape(c) && i < c.listNum
  {
    !(c.bw40 && c.isABand && ABandChOffset(c.channels[i]) == 0)
  }

  // Channel 14 ends the search for a 40 MHz channel in the 2.4 GHz band.
  predicate Stops(c: Scan, i: nat)
    requires Shape(c) && i < c.listNum
  {
    !Skipped(c, i) && c.falseCca[i] <= CCA_THRESHOLD && c.accepted[i] && c.bw40 && !c.isABand && c.channels[i] == 14
  }

  predicate Candidate1(c: Scan, i: nat)
    requires Shape(c) && i < c.listNum
  {
    && !Skipped(c, i) && c.falseCca[i] <= CCA_THRESHOLD && c.accepted[i] && WideEnough(c, i)
    && forall k :: 0 <= k <= i ==> !Stops(c, k)
  }

  // The dirtyness of place `k`, if it is in the list.
  function At(c: Scan, dirt: seq<nat>, k: int): nat
    requires Shape(c) && |dirt| == MAX_NUM_OF_CHANNELS
  {
    if 0 <= k < c.listNum then dirt[k] else 0
  }

  // The dirtyness of a channel, with that of its extension channels for 40 MHz.
  function Score1(c: Scan, dirt: seq<nat>, i: nat): nat
    requires Shape(c) && |dirt| == MAX_NUM_OF_CHANNELS && i < c.listNum
  {
    if !c.bw40 then dirt[i]
    else if c.isABand then dirt[i] + At(c, dirt, i + ABandChOffset(c.channels[i]))
    else dirt[i] + At(c, dirt, i - 4) + At(c, dirt, i + 4)
  }

  predicate Candidate2(c: Scan, i: nat)
    requires Shape(c) && i < c.listNum
  {
    !Skipped(c, i) && c.falseCca[i] > CCA_THRESHOLD && c.accepted[i] && WideEnough(c, i)
  }

  function Score2(c: Scan, dirt: seq<nat>, i: nat): nat
    requires Shape(c) && |dirt| == MAX_NUM_OF_CHANNELS && i < c.listNum
  {
    var k := i + ABandChOffset(c.channels[i]);
    c.falseCca[i] + dirt[i] + if k != i && 0 <= k < c.listNum then c.falseCca[k] + dirt[k] else 0
  }

  /** Of the candidates of rule 1, `r` is the first with the least score. */
  predicate Best1(c: Scan, dirt: seq<nat>, n: nat, r: nat)
    requires Shape(c) && |dirt| == MAX_NUM_OF_CHANNELS && n <= c.listNum
  {
    && r < n && Candidate1(c, r)
    && (forall k :: 0 <= k < r && Candidate1(c, k) ==> Score1(c, dirt, k) > Score1(c, dirt, r))
    && (forall k :: r < k < n && Candidate1(c, k) ==> Score1(c, dirt, k) >= Score1(c, dirt, r))
  }

  /** Of the candidates of rule 2, `r` is the first with the least score. */
  predicate Best2(c: Scan, dirt: seq<nat>, n: nat, r: nat)
    requires Shape(c) && |dirt| == MAX_NUM_OF_CHANNELS && n <= c.listNum
  {
    && r < n && Candidate2(c, r)
    && (forall k :: 0 <= k < r && Candidate2(c, k) ==> Score2(c, dirt, k) > Score2(c, dirt, r))
    && (forall k :: r < k < n && Candidate2(c, k) ==> Score2(c, dirt, k) >= Score2(c, dirt, r))
  }

  // The last resort leaves the channel out.
  predicate Unwanted(c: Scan, i: nat)
    requires Shape(c) && i < c.listNum
  {
    c.channels[i] in c.skipList || (c.isABand && c.avoided[i])
  }

  // The place `k` steps after `base` in cyclic order.
  function Place(c: Scan, base: nat, k: nat): (i: nat)
    requires Shape(c)
    ensures i < c.listNum
  {
    (base + k) % c.listNum
  }

  // The last resort stops after `k` steps.
  predicate StopsAfter(c: Scan, base: nat, k: nat)
    requires Shape(c)
  {
    && k < c.listNum
    && (forall j :: 0 <= j < k ==> Unwanted(c, Place(c, base, j)))
    && (k == c.listNum - 1 || !Unwanted(c, Place(c, base, k)))
  }

  /** Rule 3: the first wanted place in cyclic order from `base` on, or the last place looked at. */
  predicate Resort(c: Scan, base: nat, r: nat)
    requires Shape(c)
  {
    exists k :: 0 <= k < c.listNum && StopsAfter(c, base, k) && r == Place(c, base, k)
  }

  /** The place that the three rules pick. */
  predicate Picked(c: Scan, dirt: seq<nat>, base: nat, r: nat)
    requires Shape(c) && |dirt| == MAX_NUM_OF_CHANNELS
  {
    if exists i :: 0 <= i < c.listNum && Candidate1(c, i) then Best1(c, dirt, c.listNum, r)
    else if exists i :: 0 <= i < c.listNum && Candidate2(c, i) then Best2(c, dirt, c.listNum, r)
    else Resort(c, base, r)
  }

  function DirtOf(c: Scan, tab: seq<BssEntry>): (d: seq<nat>)
    requires Shape(c)
    ensures |d| == MAX_NUM_OF_CHANNELS
  {
    seq(MAX_NUM_OF_CHANNELS, j requires 0 <= j < MAX_NUM_OF_CHANNELS => Dirtyness(c, tab, j))
  }

  lemma ResortUnique(c: Scan, base: nat, r: nat, q: nat)
    requires Shape(c) && Resort(c, base, r) && Resort(c, base, q)
    ensures r == q
  {
    hide Unwanted, Place;
    var k :| 0 <= k < c.listNum && StopsAfter(c, base, k) && r == Place(c, base, k);
    var l :| 0 <= l < c.listNum && StopsAfter(c, base, l) && q == Place(c, base, l);
    if k < l {
      assert false;
    } else if l < k {
      assert false;
    }
  }

  lemma PickedUnique(c: Scan, dirt: seq<nat>, base: nat, r: nat, q: nat)
    requires Shape(c) && |dirt| == MAX_NUM_OF_CHANNELS && Picked(c, dirt, base, r) && Picked(c, dirt, base, q)
    ensures r == q && r < c.listNum
  {
    hide Candidate1, Candidate2, Score1, Score2, Resort;
    if exists i :: 0 <= i < c.listNum && Candidate1(c, i) {
    } else if exists i :: 0 <= i < c.listNum && Candidate2(c, i) {
    } else {
      ResortUnique(c, base, r, q);
      ResortListed(c, base, r);
    }
  }

  lemma ResortListed(c: Scan, base: nat, r: nat)
    requires Shape(c) && Resort(c, base, r)
    ensures r < c.listNum
  {
  }

  /** The chosen channel is always in the list, and does not depend on the order in which the BSSs were found. */
  lemma OrderIrrelevant(c: Scan, tab: seq<BssEntry>, tab': seq<BssEntry>, base: nat, r: nat, q: nat)
    requires Shape(c) && multiset(tab) == multiset(tab')
    requires Picked(c, DirtOf(c, tab), base, r) && Picked(c, DirtOf(c, tab'), base, q)
    ensures r == q && r < c.listNum
  {
    hide Picked, Dirtyness;
    forall j | 0 <= j < MAX_NUM_OF_CHANNELS
      ensures DirtOf(c, tab)[j] == DirtOf(c, tab')[j]
    {
      DirtynessPermuted(c, tab, tab', j);
    }
    assert DirtOf(c, tab) == DirtOf(c, tab');
    PickedUnique(c, DirtOf(c, tab), base, r, q);
  }

  // ---------- what the choice means ----------

  // In the 5 GHz band 40 MHz channels are pairs of neighbours, of which this is the lower or the upper one.
  predicate LowerHalf(ch: int) {
    ((36 <= ch <= 60 || 100 <= ch <= 132) && ch % 8 == 4) || ch == 149 || ch == 157
  }

  predicate UpperHalf(ch: int) {
    LowerHalf(ch - 4)
  }

  /** The table of the driver pairs the channels: the place of the other half is the next one for a lower half, the previous one
      for an upper half, and there is none for any other channel. */
  lemma OffsetPairs(channel: nat)
    ensures ABandChOffset(channel) == if LowerHalf(channel) then 1 else if UpperHalf(channel) then -1 else 0
    ensures !(LowerHalf(channel) && UpperHalf(channel))
  {
  }

  // Place `k` holds the other half of the 5 GHz channel at place `i`.
  predicate OtherHalf(c: Scan, i: nat, k: nat)
    requires Shape(c) && i < c.listNum
  {
    (LowerHalf(c.channels[i]) && k == i + 1) || (UpperHalf(c.channels[i]) && k == i - 1)
  }

  // The skip list names the channel, and no earlier place holds it.
  predicate Marked(c: Scan, i: nat)
    requires Shape(c) && i < c.listNum
  {
    c.channels[i] in c.skipList && forall j :: 0 <= j < i ==> c.channels[j] != c.channels[i]
  }

  // A channel with few false CCAs that may be used.
  predicate Quiet(c: Scan, i: nat)
    requires Shape(c) && i < c.listNum
  {
    !Marked(c, i) && c.accepted[i] && c.falseCca[i] <= 100
  }

  predicate Noisy(c: Scan, i: nat)
    requires Shape(c) && i < c.listNum
  {
    !Marked(c, i) && c.accepted[i] && c.falseCca[i] > 100
  }

  // The channel can be used at the required bandwidth: in the 5 GHz band it has another half for 40 MHz.
  predicate Fit(c: Scan, i: nat)
    requires Shape(c) && i < c.listNum
  {
    c.bw40 && c.isABand ==> LowerHalf(c.channels[i]) || UpperHalf(c.channels[i])
  }

  // With 40 MHz in the 2.4 GHz band a quiet channel 14 hides itself and all later places.
  predicate Hidden(c: Scan, i: nat)
    requires Shape(c) && i < c.listNum
  {
    c.bw40 && !c.isABand && exists k :: 0 <= k <= i && c.channels[k] == 14 && Quiet(c, k)
  }

  // A transmission on the channel at place `i` uses place `k`: the channel itself and, for 40 MHz, the other half in the 5 GHz
  // band and the extension channels on both sides in the 2.4 GHz band.
  predicate Uses(c: Scan, i: nat, k: nat)
    requires Shape(c) && i < c.listNum
  {
    k == i || (c.bw40 && if c.isABand then OtherHalf(c, i, k) else k == i - 4 || k == i + 4)
  }

  // The dirtyness of the first `n` places that the channel uses, over all scanned BSSs.
  function UsedDirt(c: Scan, tab: seq<BssEntry>, i: nat, n: nat): nat
    requires Shape(c) && i < c.listNum && n <= c.listNum
  {
    if n == 0 then 0 else UsedDirt(c, tab, i, n - 1) + if Uses(c, i, n - 1) then Dirtyness(c, tab, n - 1) else 0
  }

  // The false CCAs and the dirtyness of the first `n` of the places that are the channel or its other half.
  function PairNoise(c: Scan, tab: seq<BssEntry>, i: nat, n: nat): nat
    requires Shape(c) && i < c.listNum && n <= c.listNum
  {
    if n == 0 then 0
    else PairNoise(c, tab, i, n - 1)
         + if n - 1 == i || OtherHalf(c, i, n - 1) then c.falseCca[n - 1] + Dirtyness(c, tab, n - 1) else 0
  }

  predicate Eligible(c: Scan, i: nat)
    requires Shape(c) && i < c.listNum
  {
    Quiet(c, i) && Fit(c, i) && !Hidden(c, i)
  }

  // `r` has the least dirtyness of all eligible places, and is the first with so little.
  predicate Cleanest(c: Scan, tab: seq<BssEntry>, r: nat)
    requires Shape(c)
  {
    && r < c.listNum && Eligible(c, r)
    && forall k :: 0 <= k < c.listNum && Eligible(c, k) ==>
         && UsedDirt(c, tab, r, c.listNum) <= UsedDirt(c, tab, k, c.listNum)
         && (k < r ==> UsedDirt(c, tab, r, c.listNum) < UsedDirt(c, tab, k, c.listNum))
  }

  // `r` has the least noise of all places with many false CCAs, and is the first with so little.
  predicate LeastNoisy(c: Scan, tab: seq<BssEntry>, r: nat)
    requires Shape(c)
  {
    && r < c.listNum && Noisy(c, r) && Fit(c, r)
    && forall k :: 0 <= k < c.listNum && Noisy(c, k) && Fit(c, k) ==>
         && PairNoise(c, tab, r, c.listNum) <= PairNoise(c, tab, k, c.listNum)
         && (k < r ==> PairNoise(c, tab, r, c.listNum) < PairNoise(c, tab, k, c.listNum))
  }

  // The skip list does not name the channel, and radar does not exclude it.
  predicate Wanted(c: Scan, i: nat)
    requires Shape(c) && i < c.listNum
  {
    c.channels[i] !in c.skipList && !(c.isABand && c.avoided[i])
  }

  // Going round the list from `base` on, `r` comes after `k` unwanted places, and is wanted or the last one.
  predicate ResortsTo(c: Scan, base: nat, k: nat, r: nat)
    requires Shape(c)
  {
    && k < c.listNum && r == Place(c, base, k) && (k == c.listNum - 1 || Wanted(c, r))
    && forall j :: 0 <= j < k ==> !Wanted(c, Place(c, base, j))
  }

  predicate LastResort(c: Scan, base: nat, r: nat)
    requires Shape(c)
  {
    exists k :: 0 <= k < c.listNum && ResortsTo(c, base, k, r)
  }

  // The cleanest of the quiet channels, else the least noisy of the others, else the last resort.
  predicate Chosen(c: Scan, tab: seq<BssEntry>, base: nat, r: nat)
    requires Shape(c)
  {
    if exists i :: 0 <= i < c.listNum && Eligible(c, i) then Cleanest(c, tab, r)
    else if exists i :: 0 <= i < c.listNum && Noisy(c, i) && Fit(c, i) then LeastNoisy(c, tab, r)
    else LastResort(c, base, r)
  }

  lemma MarkedSkipped(c: Scan, i: nat)
    requires Shape(c) && i < c.listNum
    ensures Skipped(c, i) <==> Marked(c, i)
  {
  }

  lemma StopsMeans(c: Scan, k: nat)
    requires Shape(c) && k < c.listNum
    ensures Stops(c, k) <==> c.bw40 && !c.isABand && c.channels[k] == 14 && Quiet(c, k)
  {
    MarkedSkipped(c, k);
    hide Skipped, Marked;
  }

  lemma EligibleIs(c: Scan, i: nat)
    requires Shape(c) && i < c.listNum
    ensures Candidate1(c, i) <==> Eligible(c, i)
    ensures Candidate2(c, i) <==> Noisy(c, i) && Fit(c, i)
  {
    MarkedSkipped(c, i);
    OffsetPairs(c.channels[i]);
    forall k | 0 <= k <= i
      ensures Stops(c, k) <==> c.bw40 && !c.isABand && c.channels[k] == 14 && Quiet(c, k)
    {
      StopsMeans(c, k);
    }
    hide Skipped, Marked, Stops, ABandChOffset, LowerHalf, UpperHalf;
  }

  // The dirtyness of places at most four apart, as a sum over all places.
  lemma {:induction false} UsedDirtIs(c: Scan, tab: seq<BssEntry>, i: nat, n: nat)
    requires Shape(c) && i < c.listNum && n <= c.listNum
    ensures var d := DirtOf(c, tab);
            UsedDirt(c, tab, i, n) ==
              (if i < n then d[i] else 0)
              + (if !c.bw40 then 0
                 else if c.isABand then (var k := i + ABandChOffset(c.channels[i]); if k != i && 0 <= k < n then d[k] else 0)
                 else (if 0 <= i - 4 < n then d[i - 4] else 0) + (if i + 4 < n then d[i + 4] else 0))
  {
    hide Dirtyness, LowerHalf, ABandChOffset, UpperHalf;
    OffsetPairs(c.channels[i]);
    if n > 0 {
      UsedDirtIs(c, tab, i, n - 1);
    }
  }

  lemma {:induction false} PairNoiseIs(c: Scan, tab: seq<BssEntry>, i: nat, n: nat)
    requires Shape(c) && i < c.listNum && n <= c.listNum
    ensures var d := DirtOf(c, tab); var k := i + ABandChOffset(c.channels[i]);
            PairNoise(c, tab, i, n) ==
              (if i < n then c.falseCca[i] + d[i] else 0) + (if k != i && 0 <= k < n then c.falseCca[k] + d[k] else 0)
  {
    hide Dirtyness, LowerHalf, ABandChOffset, UpperHalf;
    OffsetPairs(c.channels[i]);
    if n > 0 {
      PairNoiseIs(c, tab, i, n - 1);
    }
  }

  lemma ScoresMean(c: Scan, tab: seq<BssEntry>, i: nat)
    requires Shape(c) && i < c.listNum
    ensures Candidate1(c, i) ==> Score1(c, DirtOf(c, tab), i) == UsedDirt(c, tab, i, c.listNum)
    ensures Score2(c, DirtOf(c, tab), i) == PairNoise(c, tab, i, c.listNum)
  {
    UsedDirtIs(c, tab, i, c.listNum);
    PairNoiseIs(c, tab, i, c.listNum);
    hide Dirtyness, ABandChOffset, UsedDirt, PairNoise;
  }

  /** The places go round the list one by one. */
  lemma PlacesGoRound(c: Scan, base: nat, k: nat)
    requires Shape(c)
    ensures Place(c, base, 0) == base % c.listNum
    ensures Place(c, base, k + 1) == if Place(c, base, k) + 1 == c.listNum then 0 else Place(c, base, k) + 1
  {
    NextPlace(base + k, c.listNum);
  }

  lemma NextPlace(x: nat, n: nat)
    requires n >= 1
    ensures (x + 1) % n == if x % n + 1 == n then 0 else x % n + 1
  {
    var q, i := x / n, x % n;
    assert n * (q + 1) == n * q + n;
    DivModUnique(x + 1, if i + 1 == n then q + 1 else q, if i + 1 == n then 0 else i + 1, n);
  }

  lemma ResortMeans(c: Scan, base: nat, r: nat)
    requires Shape(c)
    ensures Resort(c, base, r) ==> LastResort(c, base, r)
  {
    if Resort(c, base, r) {
      var k :| 0 <= k < c.listNum && StopsAfter(c, base, k) && r == Place(c, base, k);
      forall j | 0 <= j < k
        ensures !Wanted(c, Place(c, base, j))
      {
        assert Unwanted(c, Place(c, base, j));
      }
      assert ResortsTo(c, base, k, r);
    }
  }

  /** What the choice means.  If a quiet channel is eligible, the chosen one is eligible and the listed channels it uses at the
      required bandwidth are the least dirty ones, the first of several; otherwise, if a channel with many false CCAs can be
      used, the chosen one has the least false CCAs and dirtyness together with its other half; otherwise it is the last
      resort. */
  lemma PickedMeans(c: Scan, tab: seq<BssEntry>, base: nat, r: nat)
    requires Shape(c) && Picked(c, DirtOf(c, tab), base, r)
    ensures Chosen(c, tab, base, r)
  {
    hide Candidate1, Candidate2, Score1, Score2, Resort, LastResort, Eligible, Noisy, Fit, UsedDirt, PairNoise, DirtOf;
    ResortMeans(c, base, r);
    forall i | 0 <= i < c.listNum
      ensures Candidate1(c, i) <==> Eligible(c, i)
      ensures Candidate2(c, i) <==> Noisy(c, i) && Fit(c, i)
      ensures Candidate1(c, i) ==> Score1(c, DirtOf(c, tab), i) == UsedDirt(c, tab, i, c.listNum)
      ensures Score2(c, DirtOf(c, tab), i) == PairNoise(c, tab, i, c.listNum)
    {
      EligibleIs(c, i);
      ScoresMean(c, tab, i);
    }
  }

  // How many places a BSS reaches up or down: twice as many on the side of its second half.
  function Reach(c: Scan, b: BssEntry, up: bool): nat
    requires Shape(c)
  {
    (if c.isABand then 1 else 4) * (if b.extChOffset == (if up then 1 else 3) then 2 else 1)
  }

  // No two neighbouring places from `i` to `j` are more than 20 MHz apart.
  predicate NoGap(c: Scan, i: nat, j: nat)
    requires Shape(c) && j < MAX_NUM_OF_CHANNELS
  {
    forall k :: i < k <= j ==> c.channels[k] <= c.channels[k - 1] + 4
  }

  /** What a BSS weighs: 70 to 90 on its own channel by the strength of its signal; 4 less than 36 with every place away from
      it, as far as it reaches: going up as long as there is no gap, going down wherever there is none just above the place. */
  lemma WeightShape(c: Scan, b: BssEntry, j: nat)
    requires Shape(c) && j < MAX_NUM_OF_CHANNELS
    ensures var i := ChIdx(c, b);
            Weight(c, b, j) ==
              if j == i then (if b.rssi >= 70 then 90 else if b.rssi > 40 then 80 else 70)
              else if i < j then (if j - i <= Reach(c, b, true) && NoGap(c, i, j) then 36 - 4 * (j - i) else 0)
              else if i - j <= Reach(c, b, false) && c.channels[j + 1] <= c.channels[j] + 4 then 36 - 4 * (i - j) else 0
  {
    hide ChIdx;
    var i := ChIdx(c, b);
    if i < j {
      forall k | i < k <= j
        ensures Near(c, k) <==> c.channels[k] <= c.channels[k - 1] + 4
      {
      }
      assert Connected(c, i, j) <==> NoGap(c, i, j);
    }
  }

  // ---------- the loops ----------

  method AddBss(c: Scan, b: BssEntry, dirt: array<nat>)
    requires Shape(c) && dirt.Length == MAX_NUM_OF_CHANNELS
    modifies dirt
    ensures forall j :: 0 <= j < MAX_NUM_OF_CHANNELS ==> dirt[j] == old(dirt[j]) + Weight(c, b, j)
  {
    var i := 0;
    while i < c.listNum && c.channels[i] != b.channel
      invariant i <= c.listNum && ChIdxFrom(c, b.channel, i) == ChIdx(c, b)
    {
      i := i + 1;
    }
    dirt[i] := dirt[i] + SignalWeight(b.rssi);
    dirt[i] := dirt[i] + 40;
    AddAbove(c, b, i, dirt);
    AddBelow(c, b, i, dirt);
  }

  method AddAbove(c: Scan, b: BssEntry, i: nat, dirt: array<nat>)
    requires Shape(c) && dirt.Length == MAX_NUM_OF_CHANNELS && i == ChIdx(c, b)
    modifies dirt
    ensures forall j :: 0 <= j < MAX_NUM_OF_CHANNELS ==>
              dirt[j] == old(dirt[j]) + if j > i then Weight(c, b, j) else 0
  {
    hide ChIdxFrom, Near, BelowBound;
    var k := i + 1;
    while k <= i + AboveBound(c, b) && k < MAX_NUM_OF_CHANNELS && Near(c, k)
      invariant i < k <= MAX_NUM_OF_CHANNELS && Connected(c, i, k - 1)
      invariant forall j :: 0 <= j < MAX_NUM_OF_CHANNELS ==>
                  dirt[j] == old(dirt[j]) + if i < j < k then Weight(c, b, j) else 0
    {
      assert Connected(c, i, k);
      dirt[k] := dirt[k] + (9 - (k - i)) * 4;
      k := k + 1;
    }
  }

  method AddBelow(c: Scan, b: BssEntry, i: nat, dirt: array<nat>)
    requires Shape(c) && dirt.Length == MAX_NUM_OF_CHANNELS && i == ChIdx(c, b)
    modifies dirt
    ensures forall j :: 0 <= j < MAX_NUM_OF_CHANNELS ==>
              dirt[j] == old(dirt[j]) + if j < i then Weight(c, b, j) else 0
  {
    hide ChIdxFrom, Near, Connected, AboveBound;
    var k := i - 1;
    while k >= i - BelowBound(c, b) && k >= 0
      invariant -1 <= k < i
      invariant forall j :: 0 <= j < MAX_NUM_OF_CHANNELS ==>
                  dirt[j] == old(dirt[j]) + if k < j < i then Weight(c, b, j) else 0
    {
      if Near(c, k + 1) {
        dirt[k] := dirt[k] + (9 - (i - k)) * 4;
      }
      k := k - 1;
    }
  }

  /** The loop over the table of scanned BSSs. */
  method Accumulate(c: Scan, tab: seq<BssEntry>, dirt: array<nat>)
    requires Shape(c) && dirt.Length == MAX_NUM_OF_CHANNELS && forall j :: 0 <= j < MAX_NUM_OF_CHANNELS ==> dirt[j] == 0
    modifies dirt
    ensures dirt[..] == DirtOf(c, tab)
  {
    hide Weight;
    for n := 0 to |tab|
      invariant forall j :: 0 <= j < MAX_NUM_OF_CHANNELS ==> dirt[j] == Dirtyness(c, tab[..n], j)
    {
      AddBss(c, tab[n], dirt);
      assert tab[..n + 1][..n] == tab[..n];
    }
    assert tab[..|tab|] == tab;
  }

  /** AutoChannelSkipListSetDirty. */
  method MarkSkipped(c: Scan, skip: array<bool>)
    requires Shape(c) && skip.Length == c.listNum && forall i :: 0 <= i < c.listNum ==> !skip[i]
    modifies skip
    ensures forall i :: 0 <= i < c.listNum ==> skip[i] == Skipped(c, i)
  {
    for n := 0 to |c.skipList|
      invariant forall i :: 0 <= i < c.listNum ==>
                  (skip[i] <==> c.channels[i] in c.skipList[..n] && ChIdxFrom(c, c.channels[i], 0) == i)
    {
      var idx := ChIdxFrom(c, c.skipList[n], 0);
      if idx != c.listNum {
        skip[idx] := true;
      }
      assert c.skipList[..n + 1] == c.skipList[..n] + [c.skipList[n]];
    }
    assert c.skipList[..|c.skipList|] == c.skipList;
  }

  // The dirtyness of a full table of scanned BSSs.
  predicate Moderate(dirt: seq<nat>) {
    |dirt| == MAX_NUM_OF_CHANNELS && forall j :: 0 <= j < MAX_NUM_OF_CHANNELS ==> dirt[j] <= 90 * MAX_LEN_OF_BSS_TABLE
  }

  lemma ModerateDirt(c: Scan, tab: seq<BssEntry>)
    requires Shape(c) && |tab| <= MAX_LEN_OF_BSS_TABLE
    ensures Moderate(DirtOf(c, tab))
  {
    hide Dirtyness;
    forall j | 0 <= j < MAX_NUM_OF_CHANNELS
      ensures DirtOf(c, tab)[j] <= 90 * MAX_LEN_OF_BSS_TABLE
    {
      DirtynessBound(c, tab, j);
    }
  }

  /** Rule 1; -1 stands for no candidate. */
  method Rule1(c: Scan, skip: array<bool>, dirt: array<nat>) returns (r: int)
    requires Shape(c) && skip.Length == c.listNum && dirt.Length == MAX_NUM_OF_CHANNELS && Moderate(dirt[..])
    requires forall i :: 0 <= i < c.listNum ==> skip[i] == Skipped(c, i)
    ensures if r < 0 then forall i :: 0 <= i < c.listNum ==> !Candidate1(c, i) else Best1(c, dirt[..], c.listNum, r)
  {
    hide Skipped, ABandChOffset;
    var minDirty := 0xFFFFFFFF;
    r := -1;
    var i := 0;
    while i < c.listNum
      invariant 0 <= i <= c.listNum && forall k :: 0 <= k < i ==> !Stops(c, k)
      invariant r < 0 ==> minDirty == 0xFFFFFFFF && forall k :: 0 <= k < i ==> !Candidate1(c, k)
      invariant r >= 0 ==> Best1(c, dirt[..], i, r) && minDirty == Score1(c, dirt[..], r)
    {
      if !skip[i] && c.falseCca[i] <= CCA_THRESHOLD && c.accepted[i] && WideEnough(c, i) {
        if c.bw40 && !c.isABand && c.channels[i] == 14 {
          assert Stops(c, i);
          break;
        }
        var score := Score1(c, dirt[..], i);
        ScoreSmall(c, dirt[..], i);
        if minDirty > score {
          minDirty := score;
          r := i;
        }
      }
      i := i + 1;
    }
  }

  lemma ScoreSmall(c: Scan, dirt: seq<nat>, i: nat)
    requires Shape(c) && Moderate(dirt) && i < c.listNum
    ensures Score1(c, dirt, i) < 0xFFFFFFFF && Score2(c, dirt, i) < 0xFFFFFFFF
  {
    hide ABandChOffset;
  }

  /** Rule 2; -1 stands for no candidate. */
  method Rule2(c: Scan, skip: array<bool>, dirt: array<nat>) returns (r: int)
    requires Shape(c) && skip.Length == c.listNum && dirt.Length == MAX_NUM_OF_CHANNELS && Moderate(dirt[..])
    requires forall i :: 0 <= i < c.listNum ==> skip[i] == Skipped(c, i)
    ensures if r < 0 then forall i :: 0 <= i < c.listNum ==> !Candidate2(c, i) else Best2(c, dirt[..], c.listNum, r)
  {
    hide Skipped, ABandChOffset;
    var minFalseCca := 0xFFFFFFFF;
    r := -1;
    for i := 0 to c.listNum
      invariant r < 0 ==> minFalseCca == 0xFFFFFFFF && forall k :: 0 <= k < i ==> !Candidate2(c, k)
      invariant r >= 0 ==> Best2(c, dirt[..], i, r) && minFalseCca == Score2(c, dirt[..], r)
    {
      if !skip[i] && c.falseCca[i] > CCA_THRESHOLD && WideEnough(c, i) {
        var score := Score2(c, dirt[..], i);
        ScoreSmall(c, dirt[..], i);
        if c.accepted[i] && minFalseCca > score {
          minFalseCca := score;
          r := i;
        }
      }
    }
  }

  /** Rule 3. */
  method Rule3(c: Scan, base: nat) returns (r: nat)
    requires Shape(c)
    ensures Resort(c, base, r)
  {
    hide Unwanted, Place;
    r := Place(c, base, 0);
    var k := 0;
    while k < c.listNum - 1 && Unwanted(c, r)
      invariant 0 <= k < c.listNum && r == Place(c, base, k)
      invariant forall j :: 0 <= j < k ==> Unwanted(c, Place(c, base, j))
    {
      k := k + 1;
      r := Place(c, base, k);
    }
    assert StopsAfter(c, base, k);
  }

  /** SelectClearChannelCCA after a scan that started from cleared channel information; `base` is the random start of the
      last resort.  Returns the channel and its place in the list. */
  method SelectClearChannelCCA(c: Scan, tab: seq<BssEntry>, base: nat) returns (channel: nat, r: nat)
    requires Shape(c) && |tab| <= MAX_LEN_OF_BSS_TABLE
    ensures Picked(c, DirtOf(c, tab), base, r) && r < c.listNum && channel == c.channels[r]
    ensures Chosen(c, tab, base, r)
  {
    hide Chosen, Candidate1, Candidate2, Dirtyness, Skipped, Best1, Best2, Resort;
    var dirt := new nat[MAX_NUM_OF_CHANNELS](_ => 0);
    var skip := new bool[c.listNum](_ => false);
    Accumulate(c, tab, dirt);
    MarkSkipped(c, skip);
    ModerateDirt(c, tab);
    var best := Rule1(c, skip, dirt);
    if best < 0 {
      best := Rule2(c, skip, dirt);
    } else {
      BestListed(c, dirt[..], best);
    }
    if best < 0 {
      best := Rule3(c, base);
    } else {
      BestListed(c, dirt[..], best);
    }
    r := best;
    PickedUnique(c, DirtOf(c, tab), base, r, r);
    PickedMeans(c, tab, base, r);
    channel := c.channels[r];
  }

  lemma BestListed(c: Scan, dirt: seq<nat>, r: nat)
    requires Shape(c) && |dirt| == MAX_NUM_OF_CHANNELS
    ensures Best1(c, dirt, c.listNum, r) || Best2(c, dirt, c.listNum, r) ==> r < c.listNum
    ensures Best1(c, dirt, c.listNum, r) ==> Candidate1(c, r)
    ensures Best2(c, dirt, c.listNum, r) ==> Candidate2(c, r)
  {
    hide Candidate1, Candidate2;
  }
}
