/** QBSS load (ap/ap_qload.c): the busy-time histogram, the channel utilisation of section 8.4.2.30 of
    IEEE 802.11-2012, and the rate-limited alarm. */
module Qload {
  import opened Arith

  const QLOAD_BUSY_INTERVALS := 20
  const QBSS_LOAD_ALARM_DURATION := 100
  const CHAN_UTIL_BEACON_INT := 50
  const TWO32 := 0x1_0000_0000

  // The load fields of the adapter.  `wide` says that the BSS uses 40 MHz.
  datatype Load = Load(
    enabled: bool,
    suspended: bool,
    alarm: bool,
    timeThreshold: nat,
    numThreshold: nat,
    busyNum: nat,
    duration: nat,
    alarmNumber: nat,
    upTimeLast: nat,
    timePeriodLast: nat,
    busyTimeThreshold: nat,
    chanUtil: nat,
    chanUtilTotal: nat,
    beaconCnt: nat,
    beaconPeriod: nat,
    wide: bool,
    countPri: seq<nat>,
    countSec: seq<nat>)

  // What one update reads: the system time and its rate, and the busy times of the two channels in microseconds.
  datatype Reading = Reading(upTime: nat, hz: nat, sec: nat, pri: nat)

  predicate Shape(s: Load) {
    && |s.countPri| == QLOAD_BUSY_INTERVALS && |s.countSec| == QLOAD_BUSY_INTERVALS
    && s.timeThreshold < 256 && s.numThreshold < 256 && 1 <= s.beaconPeriod <= 1000
    && s.chanUtilTotal < TWO32
  }

  // The registers have 32 bits.
  predicate Registers(r: Reading) {
    r.sec < TWO32 && r.pri < TWO32 && r.hz >= 1
  }

  // ---------- one update ----------

  predicate NewPeriod(s: Load, r: Reading) {
    r.upTime > 0 && s.upTimeLast > 0 && r.upTime > s.upTimeLast
  }

  // TimePeriod in milliseconds.
  function Period(s: Load, r: Reading): nat
    requires r.hz >= 1
  {
    if NewPeriod(s, r) then (r.upTime - s.upTimeLast) * 1000 % TWO32 / r.hz else s.beaconPeriod
  }

  // QBSS_LoadAlarmBusyTimeThresholdReset.
  function ThresholdFor(timeThreshold: nat, period: nat): nat {
    period * timeThreshold % TWO32 / 100 * 1024 % TWO32
  }

  function Timed(s: Load, r: Reading): (t: Load)
    requires Shape(s) && r.hz >= 1
    ensures Shape(t)
    ensures t == s.(busyTimeThreshold := t.busyTimeThreshold, timePeriodLast := t.timePeriodLast, upTimeLast := t.upTimeLast)
  {
    var period := Period(s, r);
    var s1 := if NewPeriod(s, r)
              then s.(busyTimeThreshold := if period != s.timePeriodLast then ThresholdFor(s.timeThreshold, period)
                                           else s.busyTimeThreshold,
                      timePeriodLast := period)
              else s;
    s1.(upTimeLast := r.upTime)
  }

  // The interval of the histogram for a busy time.
  function Interval(busy: nat, period: nat): (k: nat)
    requires busy < TWO32 && period >= 1
    ensures k < QLOAD_BUSY_INTERVALS
  {
    var k := busy / 1024 * QLOAD_BUSY_INTERVALS / period;
    if k >= QLOAD_BUSY_INTERVALS then QLOAD_BUSY_INTERVALS - 1 else k
  }

  function Bump(h: seq<nat>, k: nat): (r: seq<nat>)
    requires k < |h|
    ensures |r| == |h|
  {
    h[k := (h[k] + 1) % TWO32]
  }

  predicate OverThreshold(s: Load, busy: nat) {
    s.timeThreshold > 0 && s.busyTimeThreshold != 0 && busy >= s.busyTimeThreshold
  }

  // The update finds one of the channels too busy.
  predicate Busy(s: Load, r: Reading)
    requires Shape(s) && r.hz >= 1
  {
    var t := Timed(s, r);
    (s.wide && OverThreshold(t, r.sec)) || OverThreshold(t, r.pri)
  }

  // The histograms.
  function Counted(s: Load, r: Reading, period: nat): (t: Load)
    requires Shape(s) && Registers(r) && period >= 1
    ensures Shape(t)
    ensures t == s.(countPri := t.countPri, countSec := t.countSec)
  {
    var t := if s.wide then s.(countSec := Bump(s.countSec, Interval(r.sec, period))) else s;
    t.(countPri := Bump(s.countPri, Interval(r.pri, period)))
  }

  // The length of the measuring interval in microseconds.
  function Window(beaconPeriod: nat): (w: nat)
    ensures w == 51200 * beaconPeriod
  {
    CHAN_UTIL_BEACON_INT * beaconPeriod * 1024
  }

  // Division of unsigned numbers.
  function Quotient(x: nat, d: nat): nat
    requires d >= 1
  {
    x / d
  }

  // The quotient of the formula, as the driver computes it in 32 and 8 bits.
  function Utilisation(total: nat, beaconPeriod: nat): nat
    requires 1 <= beaconPeriod <= 1000
  {
    Quotient(255 * total % TWO32, Window(beaconPeriod) % TWO32) % 256
  }

  function Utilised(s: Load, busy: nat): (t: Load)
    requires Shape(s)
    ensures Shape(t)
    ensures t == s.(chanUtil := t.chanUtil, beaconCnt := t.beaconCnt, chanUtilTotal := t.chanUtilTotal)
  {
    var total := (s.chanUtilTotal + busy) % TWO32;
    if s.beaconCnt + 1 >= CHAN_UTIL_BEACON_INT
    then s.(chanUtil := Utilisation(total, s.beaconPeriod), beaconCnt := 0, chanUtilTotal := 0)
    else s.(beaconCnt := s.beaconCnt + 1, chanUtilTotal := total)
  }

  // This update issues an alarm.
  predicate AlarmNeeded(s: Load, busy: bool) {
    s.timeThreshold > 0 && busy && s.duration == 0 && (s.busyNum + 1) % 256 >= s.numThreshold
  }

  // The counters of the alarm, without the alarm itself.
  function Watched(s: Load, busy: bool): (t: Load)
    requires Shape(s)
    ensures Shape(t)
    ensures t == s.(busyNum := t.busyNum, duration := t.duration, alarm := t.alarm)
  {
    if s.timeThreshold == 0 then s.(busyNum := 0, duration := 0, alarm := false)
    else
      var num := if !busy then 0 else if s.duration == 0 then (s.busyNum + 1) % 256 else s.busyNum;
      var dur := if AlarmNeeded(s, busy) then s.duration + 1 else s.duration;
      if dur > 0 && dur + 1 >= QBSS_LOAD_ALARM_DURATION then s.(duration := 0, busyNum := 0)
      else s.(duration := if dur > 0 then dur + 1 else 0, busyNum := num)
  }

  /** QBSS_LoadAlarm: with 40 MHz the BSS falls back to 20 MHz and goes on; otherwise the alarm stays suspended until
      the channel has been changed. */
  function Alarm(s: Load): (t: Load)
    requires Shape(s)
    ensures Shape(t)
    ensures t == s.(suspended := t.suspended, alarm := t.alarm, alarmNumber := t.alarmNumber, wide := t.wide)
  {
    var t := s.(suspended := true, alarmNumber := (s.alarmNumber + 1) % TWO32);
    if s.wide then t.(wide := false, alarm := true, suspended := false) else t
  }

  // The update does something.
  predicate Runs(s: Load) {
    s.enabled && !s.suspended
  }

  // The time since the last update gives a period that can be divided by.
  predicate Enabled(s: Load, r: Reading) {
    Shape(s) && Registers(r) && (Runs(s) ==> Period(s, r) >= 1)
  }

  /** The time since the last update cannot be divided by if and only if its product with 1000, in 32 bits, is less than the
      number of ticks in a second.  With up to 1000 ticks in a second only a product that wraps around can be. */
  lemma PeriodZeroIff(s: Load, r: Reading)
    requires Shape(s) && r.hz >= 1
    ensures Period(s, r) == 0 <==> NewPeriod(s, r) && (r.upTime - s.upTimeLast) * 1000 % TWO32 < r.hz
    ensures r.hz <= 1000 && r.upTime <= s.upTimeLast + 4_294_967 ==> Period(s, r) >= 1
  {
    if NewPeriod(s, r) {
      var x := (r.upTime - s.upTimeLast) * 1000 % TWO32;
      if x < r.hz {
        DivModUnique(x, 0, x, r.hz);
      } else {
        DivAtLeastOne(x, r.hz);
      }
    }
  }

  lemma DivAtLeastOne(x: nat, d: nat)
    requires 1 <= d <= x
    ensures x / d >= 1
  {
    var q, r := x / d, x % d;
    assert x == d * q + r && r < d;
  }

  /** QBSS_LoadUpdate. */
  function Update(s: Load, r: Reading): (t: Load)
    requires Enabled(s, r)
    ensures Shape(t)
  {
    if !Runs(s) then s
    else
      var t1 := Counted(Timed(s, r), r, Period(s, r));
      var t2 := Watched(Utilised(t1, r.pri), Busy(s, r));
      if AlarmNeeded(s, Busy(s, r)) then Alarm(t2) else t2
  }

  // ---------- runs ----------

  datatype Event = EvUpdate(reading: Reading) | EvResume | EvPoll

  predicate Possible(s: Load, e: Event) {
    Shape(s) && (e.EvUpdate? ==> Enabled(s, e.reading))
  }

  /** One event: an update, QBSS_LoadAlarmResume, or QBSS_LoadIsAlarmIssued. */
  function Step(s: Load, e: Event): (t: Load)
    requires Possible(s, e)
    ensures Shape(t)
  {
    match e
    case EvUpdate(r) => Update(s, r)
    case EvResume => s.(suspended := false)
    case EvPoll => s.(alarm := false)
  }

  predicate Run(s: Load, es: seq<Event>)
    decreases |es|, 0
  {
    Shape(s) && (es == [] || (Run(s, es[..|es| - 1]) && Possible(Exec(s, es[..|es| - 1]), es[|es| - 1])))
  }

  function Exec(s: Load, es: seq<Event>): (t: Load)
    requires Run(s, es)
    ensures Shape(t)
    decreases |es|, 1
  {
    if es == [] then s else Step(Exec(s, es[..|es| - 1]), es[|es| - 1])
  }

  // What an executed update saw: whether a channel was too busy, whether an earlier alarm locked it, whether it issued
  // an alarm, whether the BSS used 40 MHz, and what it read.
  datatype Seen = Seen(busy: bool, locked: bool, alarm: bool, wide: bool, reading: Reading)

  function Trace(s: Load, es: seq<Event>): seq<Seen>
    requires Run(s, es)
    decreases |es|
  {
    if es == [] then []
    else
      var s', e := Exec(s, es[..|es| - 1]), es[|es| - 1];
      Trace(s, es[..|es| - 1])
      + if e.EvUpdate? && Runs(s')
        then [Seen(Busy(s', e.reading), s'.duration > 0, AlarmNeeded(s', Busy(s', e.reading)), s'.wide, e.reading)]
        else []
  }

  // The load fields after initialisation.
  predicate Init(s: Load) {
    && Shape(s) && s.busyNum == 0 && s.duration == 0 && s.beaconCnt == 0 && s.chanUtilTotal == 0 && !s.suspended
    && s.busyTimeThreshold == ThresholdFor(s.timeThreshold, s.timePeriodLast)
  }

  /** Set_QloadAlarmTimeThreshold_Proc, with QBSS_LoadAlarmReset. */
  function Configured(s: Load, percent: nat): (t: Load)
    requires Shape(s)
    ensures Shape(t)
  {
    var p := percent % 256;
    s.(timeThreshold := p, alarm := false, duration := 0, alarmNumber := 0, suspended := false,
       busyTimeThreshold := ThresholdFor(p, s.beaconPeriod), timePeriodLast := s.beaconPeriod)
  }

  // How many busy updates an alarm takes.
  function Needed(s: Load): nat {
    if s.numThreshold == 0 then 1 else s.numThreshold
  }

  // The last `n` updates were busy and unlocked.
  predicate BusyAtEnd(tr: seq<Seen>, n: nat) {
    n <= |tr| && forall k :: |tr| - n <= k < |tr| ==> tr[k].busy && !tr[k].locked
  }

  // `l` is the place of the last alarm, or -1.
  predicate LastAlarm(tr: seq<Seen>, l: int) {
    && -1 <= l < |tr|
    && (l >= 0 ==> tr[l].alarm)
    && (forall k :: l < k < |tr| ==> !tr[k].alarm)
  }

  // What the counters say about the updates so far.
  ghost predicate Agrees(s: Load, tr: seq<Seen>, l: int) {
    && LastAlarm(tr, l)
    && s.busyNum < 256
    && (s.duration == 0 ==>
          && s.busyNum < Needed(s) && BusyAtEnd(tr, s.busyNum) && !BusyAtEnd(tr, s.busyNum + 1)
          && (l >= 0 ==> |tr| - 1 - l >= QBSS_LOAD_ALARM_DURATION - 2 + s.busyNum))
    && (s.duration > 0 ==> l >= 0 && s.duration == |tr| - 1 - l + 2 && s.duration < QBSS_LOAD_ALARM_DURATION)
  }

  // An alarm was issued in the last 98 updates.
  predicate JustAlarmed(tr: seq<Seen>) {
    exists a :: 0 <= a < |tr| && |tr| - a <= 98 && tr[a].alarm
  }

  // An alarm was issued exactly where `n` busy and unlocked updates had come together, and never too soon; it locked exactly
  // the 98 updates after it.
  predicate Sound(tr: seq<Seen>, n: nat) {
    && (forall i :: 0 <= i < |tr| ==> (tr[i].locked <==> JustAlarmed(tr[..i])))
    && (forall i :: 0 <= i < |tr| ==> (tr[i].alarm <==> BusyAtEnd(tr[..i + 1], n)))
    && (forall i, j :: 0 <= i < j < |tr| && tr[i].alarm && tr[j].alarm ==> j - i >= 98 + n)
  }

  lemma CountersKept(s: Load, r: Reading)
    requires Enabled(s, r) && Runs(s)
    ensures var t1 := Utilised(Counted(Timed(s, r), r, Period(s, r)), r.pri);
            && t1.busyNum == s.busyNum && t1.duration == s.duration && t1.timeThreshold == s.timeThreshold
            && t1.numThreshold == s.numThreshold
    ensures Update(s, r).timeThreshold == s.timeThreshold && Update(s, r).numThreshold == s.numThreshold
    ensures var w := Watched(Utilised(Counted(Timed(s, r), r, Period(s, r)), r.pri), Busy(s, r));
            Update(s, r).busyNum == w.busyNum && Update(s, r).duration == w.duration
  {
    hide Timed, Counted, Utilised, Watched, Alarm, AlarmNeeded, Busy, Period;
  }

  lemma ResetKept(s: Load, e: Event)
    requires Possible(s, e) && !(e.EvUpdate? && Runs(s))
    ensures var t := Step(s, e);
            t.timeThreshold == s.timeThreshold && t.numThreshold == s.numThreshold && t.busyNum == s.busyNum && t.duration == s.duration
  {
  }

  // One executed update seen from outside.
  lemma WatchedAgrees(s: Load, busy: bool, tr: seq<Seen>, l: int, wide: bool, r: Reading)
    requires Shape(s) && s.timeThreshold > 0 && Agrees(s, tr, l)
    ensures var x := Seen(busy, s.duration > 0, AlarmNeeded(s, busy), wide, r);
            Agrees(Watched(s, busy), tr + [x], if x.alarm then |tr| else l)
    ensures AlarmNeeded(s, busy) <==>
              BusyAtEnd(tr + [Seen(busy, s.duration > 0, AlarmNeeded(s, busy), wide, r)], Needed(s))
    ensures AlarmNeeded(s, busy) && l >= 0 ==> |tr| - l >= QBSS_LOAD_ALARM_DURATION - 2 + Needed(s)
  {
    var x := Seen(busy, s.duration > 0, AlarmNeeded(s, busy), wide, r);
    var tr' := tr + [x];
    BusyAppend(tr, x, s.busyNum);
    BusyAppend(tr, x, s.busyNum + 1);
    if busy && s.duration == 0 {
      BusyAppend(tr, x, Needed(s) - 1);
      if s.busyNum + 1 < Needed(s) {
        BusyFewer(tr, s.busyNum + 1, Needed(s) - 1);
      }
    } else {
      assert tr'[|tr|] == x;
      assert !BusyAtEnd(tr', 1);
      BusyFewer(tr', 1, Needed(s));
    }
  }

  lemma BusyAppend(tr: seq<Seen>, x: Seen, n: nat)
    ensures BusyAtEnd(tr + [x], n + 1) <==> x.busy && !x.locked && BusyAtEnd(tr, n)
  {
    var tr' := tr + [x];
    assert tr'[|tr|] == x;
    assert forall k :: 0 <= k < |tr| ==> tr'[k] == tr[k];
    if BusyAtEnd(tr', n + 1) {
      assert forall k :: |tr| - n <= k < |tr| ==> tr'[k] == tr[k];
    }
  }

  lemma BusyFewer(tr: seq<Seen>, m: nat, n: nat)
    requires m <= n
    ensures BusyAtEnd(tr, n) ==> BusyAtEnd(tr, m)
  {
  }

  lemma SoundAppend(tr: seq<Seen>, x: Seen, l: int, n: nat)
    requires Sound(tr, n) && LastAlarm(tr, l)
    requires x.alarm <==> BusyAtEnd(tr + [x], n)
    requires x.alarm && l >= 0 ==> |tr| - l >= QBSS_LOAD_ALARM_DURATION - 2 + n
    requires x.locked <==> l >= 0 && |tr| - l <= 98
    ensures Sound(tr + [x], n)
  {
    var tr' := tr + [x];
    forall i | 0 <= i < |tr'|
      ensures tr'[i].alarm <==> BusyAtEnd(tr'[..i + 1], n)
      ensures tr'[i].locked <==> JustAlarmed(tr'[..i])
    {
      if i < |tr| {
        assert tr'[..i + 1] == tr[..i + 1] && tr'[..i] == tr[..i];
      } else {
        assert tr'[..i + 1] == tr' && tr'[..i] == tr;
        LastJust(tr, l);
      }
    }
  }

  lemma LastJust(tr: seq<Seen>, l: int)
    requires LastAlarm(tr, l)
    ensures JustAlarmed(tr) <==> l >= 0 && |tr| - l <= 98
  {
    if JustAlarmed(tr) {
      var a :| 0 <= a < |tr| && |tr| - a <= 98 && tr[a].alarm;
      assert a <= l;
    }
  }

  // The lock holds for 98 updates.
  lemma LockedAgrees(s: Load, tr: seq<Seen>, l: int)
    requires Agrees(s, tr, l)
    ensures s.duration > 0 <==> l >= 0 && |tr| - l <= 98
  {
  }

  lemma {:induction false} RunAgrees(s: Load, es: seq<Event>) returns (l: int)
    requires Init(s) && s.timeThreshold > 0 && Run(s, es)
    ensures Agrees(Exec(s, es), Trace(s, es), l) && Sound(Trace(s, es), Needed(s))
    ensures Exec(s, es).timeThreshold == s.timeThreshold && Exec(s, es).numThreshold == s.numThreshold
    decreases |es|
  {
    hide Update, Timed, Busy, AlarmNeeded, Agrees, Sound;
    if es == [] {
      l := -1;
      InitAgrees(s);
    } else {
      var front, e := es[..|es| - 1], es[|es| - 1];
      l := RunAgrees(s, front);
      var s' := Exec(s, front);
      var tr := Trace(s, front);
      if e.EvUpdate? && Runs(s') {
        var busy := Busy(s', e.reading);
        var x := Seen(busy, s'.duration > 0, AlarmNeeded(s', busy), s'.wide, e.reading);
        UpdateAgrees(s', e.reading, tr, l);
        AgreesLast(s', tr, l);
        LockedAgrees(s', tr, l);
        SoundAppend(tr, x, l, Needed(s));
        l := if x.alarm then |tr| else l;
      } else {
        ResetKept(s', e);
        SameCounters(s', Step(s', e), tr, l);
        assert tr + [] == tr;
      }
    }
  }

  lemma InitAgrees(s: Load)
    requires Init(s)
    ensures Agrees(s, [], -1) && Sound([], Needed(s))
  {
  }

  lemma AgreesLast(s: Load, tr: seq<Seen>, l: int)
    requires Agrees(s, tr, l)
    ensures LastAlarm(tr, l)
  {
  }

  lemma SameCounters(s: Load, t: Load, tr: seq<Seen>, l: int)
    requires Agrees(s, tr, l) && t.numThreshold == s.numThreshold && t.busyNum == s.busyNum && t.duration == s.duration
    ensures Agrees(t, tr, l)
  {
  }

  lemma UpdateAgrees(s: Load, r: Reading, tr: seq<Seen>, l: int)
    requires Enabled(s, r) && Runs(s) && s.timeThreshold > 0 && Agrees(s, tr, l)
    ensures var x := Seen(Busy(s, r), s.duration > 0, AlarmNeeded(s, Busy(s, r)), s.wide, r);
            && Agrees(Update(s, r), tr + [x], if x.alarm then |tr| else l)
            && (x.alarm <==> BusyAtEnd(tr + [x], Needed(s)))
            && (x.alarm && l >= 0 ==> |tr| - l >= QBSS_LOAD_ALARM_DURATION - 2 + Needed(s))
            && Update(s, r).timeThreshold == s.timeThreshold && Update(s, r).numThreshold == s.numThreshold
  {
    hide Update, Timed, Counted, Utilised, Busy, BusyAtEnd, LastAlarm;
    CountersKept(s, r);
    var t1 := Utilised(Counted(Timed(s, r), r, Period(s, r)), r.pri);
    WatchedAgrees(t1, Busy(s, r), tr, l, s.wide, r);
  }

  // ---------- what busy means ----------

  // The busy time, in microseconds, is at least `percent` of a period in milliseconds, as 32-bit numbers.  A share that comes to
  // nothing is never reached.
  predicate AtLeast(busy: nat, percent: nat, period: nat) {
    var share := period * percent % TWO32 / 100 * 1024 % TWO32;
    share > 0 && busy >= share
  }

  lemma SmallMod(x: nat)
    requires x < TWO32
    ensures x % TWO32 == x
  {
  }

  lemma HundredthBound(x: nat)
    requires x < 100 * 0x40_0000
    ensures x / 100 < 0x40_0000
    ensures x / 100 > 0 <==> x >= 100
  {
  }

  lemma ShareOf(x: nat)
    requires x < 100 * 0x40_0000
    ensures x % TWO32 / 100 * 1024 % TWO32 == x / 100 * 1024
    ensures x / 100 > 0 <==> x >= 100
  {
    SmallMod(x);
    HundredthBound(x);
    SmallMod(x / 100 * 1024);
  }

  /** Up to 4194 seconds per cent nothing wraps around: the busy time reaches the share if and only if its whole milliseconds
      do, and the share is at least a millisecond. */
  lemma AtLeastExact(busy: nat, percent: nat, period: nat)
    requires period * percent < 100 * 0x40_0000
    ensures AtLeast(busy, percent, period) <==> period * percent >= 100 && busy / 1024 >= period * percent / 100
  {
    ShareOf(period * percent);
    var q := period * percent / 100;
    assert busy == 1024 * (busy / 1024) + busy % 1024;
    assert busy >= q * 1024 <==> busy / 1024 >= q;
  }

  predicate Clocked(tr: seq<Seen>) {
    forall k :: 0 <= k < |tr| ==> tr[k].reading.hz >= 1
  }

  // The system time of the last update.
  function UpTime(tr: seq<Seen>, up: nat): nat {
    if tr == [] then up else tr[|tr| - 1].reading.upTime
  }

  // The last period that could be measured, in milliseconds: the time between two updates that both have one.
  function Measured(tr: seq<Seen>, up: nat, period: nat): nat
    requires Clocked(tr)
  {
    if tr == [] then period
    else
      var x, before := tr[|tr| - 1].reading, UpTime(tr[..|tr| - 1], up);
      if 0 < before < x.upTime then (x.upTime - before) * 1000 % TWO32 / x.hz
      else Measured(tr[..|tr| - 1], up, period)
  }

  // The BSS uses 40 MHz until the first alarm makes it fall back.
  predicate StillWide(tr: seq<Seen>, wide: bool) {
    wide && forall k :: 0 <= k < |tr| ==> !tr[k].alarm
  }

  // An update is busy exactly when the busy time of the primary channel, or with 40 MHz that of the secondary channel, reaches
  // the configured share of the last measured period.
  predicate Meaningful(tr: seq<Seen>, percent: nat, wide: bool, up: nat, period: nat) {
    && Clocked(tr)
    && forall i :: 0 <= i < |tr| ==>
         var x := tr[i];
         && (x.wide <==> StillWide(tr[..i], wide))
         && (x.busy <==> AtLeast(x.reading.pri, percent, Measured(tr[..i + 1], up, period))
                         || (x.wide && AtLeast(x.reading.sec, percent, Measured(tr[..i + 1], up, period))))
  }

  // The fields that decide what busy means agree with the updates so far.
  predicate Tracks(s: Load, tr: seq<Seen>, percent: nat, wide: bool, up: nat, period: nat) {
    && Clocked(tr) && s.timeThreshold == percent && s.upTimeLast == UpTime(tr, up) && s.timePeriodLast == Measured(tr, up, period)
    && s.busyTimeThreshold == ThresholdFor(percent, s.timePeriodLast) && (s.wide <==> StillWide(tr, wide))
  }

  lemma WideAppend(tr: seq<Seen>, x: Seen, wide: bool)
    ensures StillWide(tr + [x], wide) <==> StillWide(tr, wide) && !x.alarm
  {
    var tr' := tr + [x];
    assert tr'[|tr|] == x;
    assert forall k :: 0 <= k < |tr| ==> tr'[k] == tr[k];
  }

  lemma MeasuredAppend(tr: seq<Seen>, x: Seen, up: nat, period: nat)
    requires Clocked(tr) && x.reading.hz >= 1
    ensures Clocked(tr + [x]) && UpTime(tr + [x], up) == x.reading.upTime
    ensures Measured(tr + [x], up, period)
         == var before := UpTime(tr, up);
            if 0 < before < x.reading.upTime then (x.reading.upTime - before) * 1000 % TWO32 / x.reading.hz
            else Measured(tr, up, period)
  {
    assert (tr + [x])[..|tr|] == tr;
  }

  // The fields after an update.
  lemma UpdateFields(s: Load, r: Reading)
    requires Enabled(s, r) && Runs(s)
    ensures var t, u := Timed(s, r), Update(s, r);
            && u.timeThreshold == s.timeThreshold && u.upTimeLast == r.upTime && u.timePeriodLast == t.timePeriodLast
            && u.busyTimeThreshold == t.busyTimeThreshold && (u.wide <==> s.wide && !AlarmNeeded(s, Busy(s, r)))
    ensures var t := Timed(s, r);
            t.timePeriodLast == if 0 < s.upTimeLast < r.upTime then (r.upTime - s.upTimeLast) * 1000 % TWO32 / r.hz else s.timePeriodLast
    ensures s.busyTimeThreshold == ThresholdFor(s.timeThreshold, s.timePeriodLast) ==>
              Timed(s, r).busyTimeThreshold == ThresholdFor(s.timeThreshold, Timed(s, r).timePeriodLast)
  {
    hide Counted, Utilised, Watched, AlarmNeeded, Busy, ThresholdFor;
  }

  lemma BusyMeans(s: Load, r: Reading)
    requires Enabled(s, r) && Timed(s, r).busyTimeThreshold == ThresholdFor(s.timeThreshold, Timed(s, r).timePeriodLast)
    ensures var period := Timed(s, r).timePeriodLast;
            Busy(s, r) <==> AtLeast(r.pri, s.timeThreshold, period) || (s.wide && AtLeast(r.sec, s.timeThreshold, period))
  {
    hide Period;
  }

  lemma UpdateTracks(s: Load, r: Reading, tr: seq<Seen>, percent: nat, wide: bool, up: nat, period: nat)
    requires Enabled(s, r) && Runs(s) && Tracks(s, tr, percent, wide, up, period) && Meaningful(tr, percent, wide, up, period)
    ensures var x := Seen(Busy(s, r), s.duration > 0, AlarmNeeded(s, Busy(s, r)), s.wide, r);
            Tracks(Update(s, r), tr + [x], percent, wide, up, period) && Meaningful(tr + [x], percent, wide, up, period)
  {
    hide Update, Timed, Busy, AlarmNeeded, ThresholdFor, AtLeast, Measured, UpTime, StillWide;
    var x := Seen(Busy(s, r), s.duration > 0, AlarmNeeded(s, Busy(s, r)), s.wide, r);
    UpdateFields(s, r);
    BusyMeans(s, r);
    WideAppend(tr, x, wide);
    MeasuredAppend(tr, x, up, period);
    MeaningfulAppend(tr, x, percent, wide, up, period);
  }

  lemma MeaningfulAppend(tr: seq<Seen>, x: Seen, percent: nat, wide: bool, up: nat, period: nat)
    requires Meaningful(tr, percent, wide, up, period) && Clocked(tr + [x]) && (x.wide <==> StillWide(tr, wide))
    requires var p := Measured(tr + [x], up, period);
             x.busy <==> AtLeast(x.reading.pri, percent, p) || (x.wide && AtLeast(x.reading.sec, percent, p))
    ensures Meaningful(tr + [x], percent, wide, up, period)
  {
    hide AtLeast, Measured, StillWide;
    var tr' := tr + [x];
    forall i | 0 <= i < |tr'|
      ensures tr'[i].wide <==> StillWide(tr'[..i], wide)
      ensures var p := Measured(tr'[..i + 1], up, period);
              tr'[i].busy <==> AtLeast(tr'[i].reading.pri, percent, p) || (tr'[i].wide && AtLeast(tr'[i].reading.sec, percent, p))
    {
      if i < |tr| {
        assert tr'[..i] == tr[..i] && tr'[..i + 1] == tr[..i + 1];
      } else {
        assert tr'[..i] == tr && tr'[..i + 1] == tr';
      }
    }
  }

  lemma {:induction false} RunTracks(s: Load, es: seq<Event>)
    requires Init(s) && Run(s, es)
    ensures Tracks(Exec(s, es), Trace(s, es), s.timeThreshold, s.wide, s.upTimeLast, s.timePeriodLast)
    ensures Meaningful(Trace(s, es), s.timeThreshold, s.wide, s.upTimeLast, s.timePeriodLast)
    decreases |es|
  {
    hide Update, Busy, AlarmNeeded, Meaningful;
    if es == [] {
      NothingSeen(s);
    } else {
      var front, e := es[..|es| - 1], es[|es| - 1];
      RunTracks(s, front);
      var s', tr := Exec(s, front), Trace(s, front);
      if e.EvUpdate? && Runs(s') {
        UpdateTracks(s', e.reading, tr, s.timeThreshold, s.wide, s.upTimeLast, s.timePeriodLast);
      } else {
        assert tr + [] == tr;
        IdleStep(s', e);
      }
    }
  }

  lemma IdleStep(s: Load, e: Event)
    requires Possible(s, e) && !(e.EvUpdate? && Runs(s))
    ensures Step(s, e) == s.(suspended := if e.EvResume? then false else s.suspended, alarm := if e.EvPoll? then false else s.alarm)
  {
  }

  lemma NothingSeen(s: Load)
    ensures Meaningful([], s.timeThreshold, s.wide, s.upTimeLast, s.timePeriodLast)
  {
  }

  /** Over any run without a reset and with the alarm enabled: an update is busy if and only if a channel in use was busy for at
      least the configured percentage of the last measured period; an update issues an alarm if and only if it ends as many
      consecutive busy updates as the threshold asks for, none of them locked; an alarm locks exactly the 98 updates after
      it, so that two alarms are at least 98 plus that many updates apart. */
  lemma AlarmHistory(s: Load, es: seq<Event>)
    requires Init(s) && s.timeThreshold > 0 && Run(s, es)
    ensures Sound(Trace(s, es), Needed(s))
    ensures Meaningful(Trace(s, es), s.timeThreshold, s.wide, s.upTimeLast, s.timePeriodLast)
  {
    hide Sound, Meaningful, Trace;
    var l := RunAgrees(s, es);
    RunTracks(s, es);
  }

  /** Configuring the alarm at the start of a run is a start of its own, with a threshold of the beacon period's share. */
  lemma ConfiguredStarts(s: Load, percent: nat)
    requires Init(s) && percent < 256
    ensures var t := Configured(s, percent);
            Init(t) && t.timeThreshold == percent && t.timePeriodLast == s.beaconPeriod
            && t == s.(timeThreshold := percent, alarm := false, alarmNumber := 0,
                       busyTimeThreshold := t.busyTimeThreshold, timePeriodLast := s.beaconPeriod)
  {
    hide ThresholdFor;
  }

  /** What an alarm does.  With 40 MHz the BSS falls back to 20 MHz, the alarm is pending and the load goes on being watched; with
      20 MHz the load is not watched any more.  Without an alarm none of this changes. */
  lemma AlarmEffect(s: Load, r: Reading)
    requires Enabled(s, r) && Runs(s) && s.timeThreshold > 0
    ensures var u := Update(s, r);
            if !AlarmNeeded(s, Busy(s, r)) then u.wide == s.wide && u.alarm == s.alarm && Runs(u) && u.alarmNumber == s.alarmNumber
            else !u.wide && u.alarmNumber == (s.alarmNumber + 1) % TWO32
                 && (if s.wide then u.alarm && Runs(u) else u.alarm == s.alarm && u.suspended && !Runs(u))
  {
    hide Busy, Interval, Bump, Utilisation, Period, ThresholdFor;
  }

  /** A suspended load does nothing until it is resumed: whatever else happens, no update is executed. */
  lemma {:induction false} SuspendedUntilResumed(s: Load, es: seq<Event>, more: seq<Event>)
    requires Run(s, es + more) && Run(s, es) && Exec(s, es).suspended
    requires forall k :: 0 <= k < |more| ==> !more[k].EvResume?
    ensures Trace(s, es + more) == Trace(s, es)
    ensures Exec(s, es + more) == Exec(s, es).(alarm := Exec(s, es + more).alarm)
    decreases |more|
  {
    hide Update, Busy, AlarmNeeded;
    if more == [] {
      assert es + more == es;
    } else {
      var n := |more| - 1;
      assert (es + more)[..|es + more| - 1] == es + more[..n];
      SuspendedUntilResumed(s, es, more[..n]);
      IdleStep(Exec(s, es + more[..n]), more[n]);
    }
  }

  /** While the time threshold is 0 no alarm is ever issued. */
  lemma NoAlarmWhenOff(s: Load, r: Reading)
    requires Enabled(s, r) && s.timeThreshold == 0
    ensures !AlarmNeeded(s, Busy(s, r)) && Update(s, r).alarmNumber == s.alarmNumber
    ensures Runs(s) ==> var u := Update(s, r); !u.alarm && u.busyNum == 0 && u.duration == 0 && u.wide == s.wide
  {
    hide Interval, Bump, Utilisation, Period, ThresholdFor;
  }

  // ---------- channel utilisation ----------

  function Sum(tr: seq<Seen>, n: nat): nat
    requires n <= |tr|
  {
    if n == 0 then 0 else Sum(tr, n - 1) + tr[|tr| - n].reading.pri
  }

  // No update saw more busy time than a beacon period has.
  predicate WithinPeriod(tr: seq<Seen>, beaconPeriod: nat) {
    forall k :: 0 <= k < |tr| ==> tr[k].reading.pri <= beaconPeriod * 1024
  }

  lemma {:induction false} SumAppend(tr: seq<Seen>, x: Seen, n: nat)
    requires n <= |tr|
    ensures Sum(tr + [x], n + 1) == Sum(tr, n) + x.reading.pri
  {
    var tr' := tr + [x];
    assert tr'[|tr|] == x;
    if n == 0 {
      assert Sum(tr', 0) == 0;
    } else {
      SumAppend(tr, x, n - 1);
      assert tr'[|tr'| - (n + 1)] == tr[|tr| - n];
    }
  }

  lemma {:induction false} SumBound(tr: seq<Seen>, beaconPeriod: nat, n: nat)
    requires n <= |tr| && WithinPeriod(tr, beaconPeriod)
    ensures Sum(tr, n) <= n * (beaconPeriod * 1024)
  {
    if n > 0 {
      SumBound(tr, beaconPeriod, n - 1);
      assert n * (beaconPeriod * 1024) == (n - 1) * (beaconPeriod * 1024) + beaconPeriod * 1024;
    }
  }

  // The counters hold the updates since the last full interval; the value in the beacon is that of the last full one.
  ghost predicate Measures(s: Load, tr: seq<Seen>) {
    && Shape(s) && s.beaconCnt == |tr| % CHAN_UTIL_BEACON_INT && s.chanUtilTotal == Sum(tr, s.beaconCnt)
    && (|tr| >= CHAN_UTIL_BEACON_INT ==>
          s.chanUtil == Utilisation(Sum(tr[..|tr| - s.beaconCnt], CHAN_UTIL_BEACON_INT), s.beaconPeriod))
  }

  lemma MulMono(m: nat, n: nat, x: nat)
    requires m <= n
    ensures m * x <= n * x
  {
  }

  lemma AtMostInterval(n: nat, beaconPeriod: nat)
    requires n <= CHAN_UTIL_BEACON_INT && beaconPeriod <= 1000
    ensures n * (beaconPeriod * 1024) < TWO32
  {
    MulMono(n, CHAN_UTIL_BEACON_INT, beaconPeriod * 1024);
  }

  lemma NextCount(n: nat)
    ensures (n + 1) % CHAN_UTIL_BEACON_INT
            == if n % CHAN_UTIL_BEACON_INT + 1 >= CHAN_UTIL_BEACON_INT then 0 else n % CHAN_UTIL_BEACON_INT + 1
  {
  }

  lemma SumNone(tr: seq<Seen>)
    ensures Sum(tr, 0) == 0
  {
  }

  lemma UtilisedMeasures(s: Load, x: Seen, tr: seq<Seen>)
    requires Measures(s, tr) && WithinPeriod(tr + [x], s.beaconPeriod)
    ensures Measures(Utilised(s, x.reading.pri), tr + [x])
  {
    hide Utilisation, Sum, WithinPeriod;
    var tr' := tr + [x];
    var n := s.beaconCnt;
    NextCount(|tr|);
    assert |tr'| == |tr| + 1;
    SumAppend(tr, x, n);
    SumBound(tr', s.beaconPeriod, n + 1);
    AtMostInterval(n + 1, s.beaconPeriod);
    SumNone(tr');
    if n + 1 >= CHAN_UTIL_BEACON_INT {
      assert tr'[..|tr'|] == tr';
    } else {
      assert tr'[..|tr'| - (n + 1)] == tr[..|tr| - n];
    }
  }

  lemma MeasuresKept(s: Load, t: Load, tr: seq<Seen>)
    requires Measures(s, tr) && Shape(t)
    requires t.beaconCnt == s.beaconCnt && t.chanUtilTotal == s.chanUtilTotal && t.chanUtil == s.chanUtil && t.beaconPeriod == s.beaconPeriod
    ensures Measures(t, tr)
  {
  }

  // The parts of an update around the utilisation leave its fields alone.
  lemma UtilisationKept(s: Load, r: Reading)
    requires Enabled(s, r) && Runs(s)
    ensures var t1 := Counted(Timed(s, r), r, Period(s, r)); var t2 := Utilised(t1, r.pri); var u := Update(s, r);
            && t1.beaconCnt == s.beaconCnt && t1.chanUtilTotal == s.chanUtilTotal && t1.chanUtil == s.chanUtil
            && t1.beaconPeriod == s.beaconPeriod
            && u.beaconCnt == t2.beaconCnt && u.chanUtilTotal == t2.chanUtilTotal && u.chanUtil == t2.chanUtil
            && u.beaconPeriod == t2.beaconPeriod
  {
    hide Timed, Counted, Utilised, Watched, Alarm, AlarmNeeded, Busy, Period;
  }

  lemma {:induction false} RunMeasures(s: Load, es: seq<Event>)
    requires Init(s) && Run(s, es) && WithinPeriod(Trace(s, es), s.beaconPeriod)
    ensures Measures(Exec(s, es), Trace(s, es)) && Exec(s, es).beaconPeriod == s.beaconPeriod
    decreases |es|
  {
    hide Update, Measures, Busy, AlarmNeeded;
    if es == [] {
      InitMeasures(s);
    } else {
      var front, e := es[..|es| - 1], es[|es| - 1];
      var s', tr, tr' := Exec(s, front), Trace(s, front), Trace(s, es);
      assert tr == tr'[..|tr|];
      assert WithinPeriod(tr, s.beaconPeriod) by {
        assert forall k :: 0 <= k < |tr| ==> tr[k] == tr'[k];
      }
      RunMeasures(s, front);
      if e.EvUpdate? && Runs(s') {
        var r := e.reading;
        var x := Seen(Busy(s', r), s'.duration > 0, AlarmNeeded(s', Busy(s', r)), s'.wide, r);
        assert tr' == tr + [x];
        UpdateMeasures(s', r, x, tr);
      } else {
        assert tr' == tr;
        StepKept(s', e);
        MeasuresKept(s', Step(s', e), tr);
      }
    }
  }

  lemma StepKept(s: Load, e: Event)
    requires Possible(s, e) && !(e.EvUpdate? && Runs(s))
    ensures var t := Step(s, e);
            && t.beaconCnt == s.beaconCnt && t.chanUtilTotal == s.chanUtilTotal && t.chanUtil == s.chanUtil
            && t.beaconPeriod == s.beaconPeriod
  {
  }

  lemma InitMeasures(s: Load)
    requires Init(s)
    ensures Measures(s, [])
  {
  }

  lemma UpdateMeasures(s: Load, r: Reading, x: Seen, tr: seq<Seen>)
    requires Enabled(s, r) && Runs(s) && Measures(s, tr) && x.reading.pri == r.pri && WithinPeriod(tr + [x], s.beaconPeriod)
    ensures Measures(Update(s, r), tr + [x]) && Update(s, r).beaconPeriod == s.beaconPeriod
  {
    hide Update, Timed, Counted, Utilised, Measures, WithinPeriod;
    UtilisationKept(s, r);
    var t1 := Counted(Timed(s, r), r, Period(s, r));
    MeasuresKept(s, t1, tr);
    UtilisedMeasures(t1, x, tr);
    MeasuresKept(Utilised(t1, r.pri), Update(s, r), tr + [x]);
    PeriodUtilised(t1, r.pri);
  }

  lemma PeriodUtilised(s: Load, busy: nat)
    requires Shape(s)
    ensures Utilised(s, busy).beaconPeriod == s.beaconPeriod
  {
  }

  // The formula of the standard without any limit on the width of numbers.
  function Exact(total: nat, beaconPeriod: nat): nat
    requires beaconPeriod >= 1
  {
    Quotient(255 * total, Window(beaconPeriod))
  }

  lemma DivAtMost(x: nat, d: nat, n: nat)
    requires d >= 1 && x <= n * d
    ensures Quotient(x, d) <= n
  {
    if x / d > n {
      MulAtLeast(d, x / d - n);
      assert d * (x / d - n) == d * (x / d) - d * n;
    }
  }

  lemma DivLess(x: nat, y: nat, d: nat)
    requires d >= 1 && x + d <= y
    ensures Quotient(x, d) < Quotient(y, d)
  {
    assert (x + d) / d == x / d + 1 by {
      DivModUnique(x + d, x / d + 1, x % d, d);
    }
    if y / d < (x + d) / d {
      MulAtLeast(d, (x + d) / d - y / d);
    }
  }

  // The 8-bit cut never matters.
  lemma UtilisationQuotient(total: nat, beaconPeriod: nat)
    requires 1 <= beaconPeriod <= 1000 && total <= Window(beaconPeriod)
    ensures Utilisation(total, beaconPeriod) == Quotient(255 * total % TWO32, Window(beaconPeriod))
    ensures Exact(total, beaconPeriod) <= 255
  {
    hide Window, Quotient;
    var d := Window(beaconPeriod);
    assert d % TWO32 == d;
    DivAtMost(255 * total, d, 255);
    DivAtMost(255 * total % TWO32, d, 255);
  }

  /** For every beacon period that can be configured and a total within the interval, the 32-bit computation gives the
      percentage of the standard, normalised to 255, if and only if 255 times the total fits in 32 bits. */
  lemma UtilisationExactIff(total: nat, beaconPeriod: nat)
    requires 1 <= beaconPeriod <= 1000 && total <= Window(beaconPeriod)
    ensures Exact(total, beaconPeriod) <= 255
    ensures Utilisation(total, beaconPeriod) == Exact(total, beaconPeriod) <==> 255 * total < TWO32
  {
    hide Window, Utilisation, Quotient;
    UtilisationQuotient(total, beaconPeriod);
    var d, x := Window(beaconPeriod), 255 * total;
    var y := x % TWO32;
    if x >= TWO32 {
      Wrapped(x);
      DivLess(y, x, d);
    }
  }

  lemma Wrapped(x: nat)
    requires x >= TWO32
    ensures x % TWO32 + TWO32 <= x
  {
  }

  /** A beacon period up to 328 is short enough for every total. */
  lemma ShortPeriodExact(total: nat, beaconPeriod: nat)
    requires 1 <= beaconPeriod <= 328 && total <= Window(beaconPeriod)
    ensures Utilisation(total, beaconPeriod) == Exact(total, beaconPeriod)
  {
    UtilisationExactIff(total, beaconPeriod);
  }

  // With a beacon period of 329 a channel that is busy all the time is announced as idle.
  lemma LongPeriodExample()
    ensures Exact(Window(329), 329) == 255
    ensures Utilisation(Window(329), 329) == 0
  {
  }

  /** With any longer beacon period that can be configured, a channel that is busy all the time is announced wrongly. */
  lemma LongPeriodWrong(beaconPeriod: nat)
    requires 328 < beaconPeriod <= 1000
    ensures Exact(Window(beaconPeriod), beaconPeriod) == 255 != Utilisation(Window(beaconPeriod), beaconPeriod)
  {
    hide Utilisation, Quotient;
    var w := Window(beaconPeriod);
    UtilisationExactIff(w, beaconPeriod);
    WholeWindow(beaconPeriod);
  }

  lemma WholeWindow(beaconPeriod: nat)
    requires beaconPeriod >= 1
    ensures Exact(Window(beaconPeriod), beaconPeriod) == 255
  {
    DivModUnique(255 * Window(beaconPeriod), 255, 0, Window(beaconPeriod));
  }

  lemma PrefixWithin(tr: seq<Seen>, n: nat, beaconPeriod: nat)
    requires n <= |tr| && WithinPeriod(tr, beaconPeriod)
    ensures WithinPeriod(tr[..n], beaconPeriod)
  {
  }

  /** After any run, the value in the beacon is the standard's formula over the last full interval of 50 updates, if and
      only if 255 times the busy time of that interval fits in 32 bits. */
  lemma ChannelUtilisation(s: Load, es: seq<Event>)
    requires Init(s) && Run(s, es) && WithinPeriod(Trace(s, es), s.beaconPeriod)
    requires |Trace(s, es)| >= CHAN_UTIL_BEACON_INT
    ensures var tr, t := Trace(s, es), Exec(s, es);
            var total := Sum(tr[..|tr| - |tr| % CHAN_UTIL_BEACON_INT], CHAN_UTIL_BEACON_INT);
            t.chanUtil == Exact(total, s.beaconPeriod) <==> 255 * total < TWO32
  {
    hide Utilisation, Exact, Sum, Trace, Exec, Run, Window, WithinPeriod;
    RunMeasures(s, es);
    var tr := Trace(s, es);
    var window := tr[..|tr| - |tr| % CHAN_UTIL_BEACON_INT];
    PrefixWithin(tr, |tr| - |tr| % CHAN_UTIL_BEACON_INT, s.beaconPeriod);
    SumBound(window, s.beaconPeriod, CHAN_UTIL_BEACON_INT);
    UtilisationExactIff(Sum(window, CHAN_UTIL_BEACON_INT), s.beaconPeriod);
  }

  // ---------- the histogram ----------

  // Only the histograms of the counted state matter.
  lemma HistogramKept(s: Load, r: Reading)
    requires Enabled(s, r) && Runs(s)
    ensures var t1 := Counted(Timed(s, r), r, Period(s, r));
            Update(s, r).countPri == t1.countPri && Update(s, r).countSec == t1.countSec
  {
    hide Timed, Counted, Utilised, Watched, Alarm, AlarmNeeded, Busy, Period;
  }

  /** Every executed update adds one to exactly one interval of the primary histogram, and to one of the secondary
      histogram exactly when the BSS uses 40 MHz; the interval is the share of the period that was busy. */
  lemma OneInterval(s: Load, r: Reading)
    requires Enabled(s, r) && Runs(s)
    ensures Period(s, r) == if 0 < s.upTimeLast < r.upTime then (r.upTime - s.upTimeLast) * 1000 % TWO32 / r.hz else s.beaconPeriod
    ensures var k := Interval(r.pri, Period(s, r));
            && k < QLOAD_BUSY_INTERVALS
            && (forall j :: 0 <= j < QLOAD_BUSY_INTERVALS ==>
                  Update(s, r).countPri[j] == if j == k then (s.countPri[j] + 1) % TWO32 else s.countPri[j])
    ensures var k := Interval(r.sec, Period(s, r));
            forall j :: 0 <= j < QLOAD_BUSY_INTERVALS ==>
              Update(s, r).countSec[j] == if s.wide && j == k then (s.countSec[j] + 1) % TWO32 else s.countSec[j]
  {
    hide Update, Interval, ThresholdFor;
    HistogramKept(s, r);
  }

  /** The interval is the twentieth of the period that the busy milliseconds reach, the last one taking everything above. */
  lemma IntervalShare(busy: nat, period: nat, k: nat)
    requires busy < TWO32 && period >= 1 && k < 20
    ensures Interval(busy, period) == k
            <==> k * period <= busy / 1024 * 20 && (k == 19 || busy / 1024 * 20 < (k + 1) * period)
  {
    var x := busy / 1024 * 20;
    QuotientAtLeast(x, period, k);
    QuotientAtLeast(x, period, k + 1);
    assert Interval(busy, period) == if Quotient(x, period) >= 20 then 19 else Quotient(x, period);
    hide Quotient, Interval;
  }

  lemma QuotientAtLeast(x: nat, d: nat, n: nat)
    requires d >= 1
    ensures Quotient(x, d) >= n <==> n * d <= x
  {
    var q, r := x / d, x % d;
    assert x == q * d + r;
    if q >= n {
      MulMono(n, q, d);
    } else {
      MulMono(q + 1, n, d);
      assert (q + 1) * d == q * d + d;
    }
  }

  // ---------- the adapter's fields ----------

  class Monitor {
    var enabled: bool
    var suspended: bool
    var alarm: bool
    var timeThreshold: nat
    var numThreshold: nat
    var busyNum: nat
    var duration: nat
    var alarmNumber: nat
    var upTimeLast: nat
    var timePeriodLast: nat
    var busyTimeThreshold: nat
    var chanUtil: nat
    var chanUtilTotal: nat
    var beaconCnt: nat
    var beaconPeriod: nat
    var wide: bool
    const countPri: array<nat>
    const countSec: array<nat>

    ghost function State(): Load
      reads this, countPri, countSec
    {
      Load(enabled, suspended, alarm, timeThreshold, numThreshold, busyNum, duration, alarmNumber, upTimeLast, timePeriodLast,
           busyTimeThreshold, chanUtil, chanUtilTotal, beaconCnt, beaconPeriod, wide, countPri[..], countSec[..])
    }

    ghost predicate Valid()
      reads this, countPri, countSec
    {
      Shape(State()) && countPri != countSec
    }

    /** QBSS_LoadInit for an adapter with a WMM BSS. */
    constructor (beaconPeriod: nat, wide: bool)
      requires 1 <= beaconPeriod <= 1000
      ensures Valid() && fresh(countPri) && fresh(countSec) && Init(State()) && enabled && timeThreshold == 0
      ensures this.beaconPeriod == beaconPeriod && this.wide == wide
    {
      enabled, suspended, alarm := true, false, false;
      timeThreshold, numThreshold, busyNum, duration, alarmNumber := 0, 10, 0, 0, 0;
      upTimeLast, timePeriodLast, busyTimeThreshold := 0, 0, 0;
      chanUtil, chanUtilTotal, beaconCnt := 0, 0, 0;
      this.beaconPeriod, this.wide := beaconPeriod, wide;
      countPri := new nat[QLOAD_BUSY_INTERVALS](_ => 0);
      countSec := new nat[QLOAD_BUSY_INTERVALS](_ => 0);
    }

    method UpdateTime(r: Reading) returns (period: nat)
      requires Valid() && r.hz >= 1
      modifies this
      ensures Valid() && State() == Timed(old(State()), r) && period == Period(old(State()), r)
    {
      period := beaconPeriod;
      if r.upTime > 0 && upTimeLast > 0 && r.upTime > upTimeLast {
        period := (r.upTime - upTimeLast) * 1000 % TWO32 / r.hz;
        if period != timePeriodLast {
          busyTimeThreshold := ThresholdFor(timeThreshold, period);
        }
        timePeriodLast := period;
      }
      upTimeLast := r.upTime;
    }

    method Count(h: array<nat>, busy: nat, period: nat)
      requires h.Length == QLOAD_BUSY_INTERVALS && busy < TWO32 && period >= 1
      modifies h
      ensures h[..] == Bump(old(h[..]), Interval(busy, period))
    {
      var k := busy / 1024 * QLOAD_BUSY_INTERVALS / period;
      if k >= QLOAD_BUSY_INTERVALS {
        k := QLOAD_BUSY_INTERVALS - 1;
      }
      h[k] := (h[k] + 1) % TWO32;
    }

    method Utilise(busy: nat)
      requires Valid()
      modifies this
      ensures Valid() && State() == Utilised(old(State()), busy)
    {
      chanUtilTotal := (chanUtilTotal + busy) % TWO32;
      beaconCnt := beaconCnt + 1;
      if beaconCnt >= CHAN_UTIL_BEACON_INT {
        chanUtil := Utilisation(chanUtilTotal, beaconPeriod);
        beaconCnt, chanUtilTotal := 0, 0;
      }
    }

    method Watch(busy: bool) returns (needed: bool)
      requires Valid()
      modifies this
      ensures Valid() && State() == Watched(old(State()), busy) && needed == AlarmNeeded(old(State()), busy)
    {
      needed := false;
      if timeThreshold > 0 {
        if busy {
          if duration == 0 {
            busyNum := (busyNum + 1) % 256;
            if busyNum >= numThreshold {
              needed := true;
              duration := duration + 1;
            }
          }
        } else {
          busyNum := 0;
        }
        if duration > 0 {
          duration := duration + 1;
          if duration >= QBSS_LOAD_ALARM_DURATION {
            duration, busyNum := 0, 0;
          }
        }
      } else {
        busyNum, duration, alarm := 0, 0, false;
      }
    }

    method RaiseAlarm()
      requires Valid()
      modifies this
      ensures Valid() && State() == Alarm(old(State()))
    {
      suspended := true;
      alarmNumber := (alarmNumber + 1) % TWO32;
      if wide {
        wide, alarm, suspended := false, true, false;
      }
    }

    /** QBSS_LoadUpdate. */
    method LoadUpdate(r: Reading)
      requires Valid() && Enabled(State(), r)
      modifies this, countPri, countSec
      ensures Valid() && State() == Update(old(State()), r)
    {
      hide Timed, Utilised, Watched, Alarm, Interval, Bump, Period;
      if !enabled || suspended {
        return;
      }
      var period := UpdateTime(r);
      ghost var s1 := State();
      var busy := false;
      if wide {
        Count(countSec, r.sec, period);
        busy := timeThreshold > 0 && busyTimeThreshold != 0 && r.sec >= busyTimeThreshold;
      }
      Count(countPri, r.pri, period);
      busy := busy || (timeThreshold > 0 && busyTimeThreshold != 0 && r.pri >= busyTimeThreshold);
      assert State() == Counted(s1, r, period);
      assert busy == Busy(old(State()), r);
      Utilise(r.pri);
      var needed := Watch(busy);
      if needed {
        RaiseAlarm();
      }
    }

    /** Set_QloadAlarmTimeThreshold_Proc. */
    method SetTimeThreshold(percent: nat)
      requires Valid()
      modifies this
      ensures Valid() && State() == Configured(old(State()), percent)
    {
      timeThreshold := percent % 256;
      alarm, duration, alarmNumber, suspended := false, 0, 0, false;
      busyTimeThreshold := ThresholdFor(timeThreshold, beaconPeriod);
      timePeriodLast := beaconPeriod;
    }

    /** QBSS_LoadAlarmResume. */
    method Resume()
      requires Valid()
      modifies this
      ensures Valid() && State() == Step(old(State()), EvResume)
    {
      suspended := false;
    }

    /** QBSS_LoadIsAlarmIssued: tells whether an alarm is pending and clears it. */
    method IsAlarmIssued() returns (issued: bool)
      requires Valid()
      modifies this
      ensures Valid() && State() == Step(old(State()), EvPoll) && issued == old(State()).alarm
    {
      issued := alarm;
      alarm := false;
    }
  }
}
