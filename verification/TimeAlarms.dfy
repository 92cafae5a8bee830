/**
 The alarm pool of the TimeAlarms library: a fixed number of slots, each a timer, an explicit date, or a
 daily or weekly alarm, served by polling.  Handlers do nothing here; the pool reports which slots fired.
 */
module AlarmSpec {
  import opened Calendar
  import opened Words

  datatype AlarmType = NotAllocated | Timer | ExplicitAlarm | DailyAlarm | WeeklyAlarm

  datatype Alarm = Alarm(kind: AlarmType, isEnabled: bool, isOneShot: bool,
                         value: nat, nextTrigger: nat, onTick: Option<nat>)

  const SECS_PER_WEEK: nat := 7 * SECS_PER_DAY
  const SECS_PER_YEAR: nat := 52 * SECS_PER_WEEK

  const FREE: Alarm := Alarm(NotAllocated, false, false, 0, 0, None)

  predicate IsAlarm(kind: AlarmType) {
    kind.ExplicitAlarm? || kind.DailyAlarm? || kind.WeeklyAlarm?
  }

  predicate UsesAbsoluteValue(kind: AlarmType) {
    kind.Timer? || kind.ExplicitAlarm?
  }

  function PreviousMidnight(t: nat): nat {
    t / SECS_PER_DAY * SECS_PER_DAY
  }

  function ElapsedSecsThisWeek(t: nat): nat {
    t % SECS_PER_DAY + (Weekday(t) - 1) * SECS_PER_DAY
  }

  function PreviousSunday(t: nat): int {
    t - ElapsedSecsThisWeek(t)
  }

  /** updateNextTrigger at time t. */
  function Updated(a: Alarm, t: nat): Alarm {
    if !a.isEnabled then a
    else if a.kind.Timer? then a.(nextTrigger := U32(t + a.value))
    else if IsAlarm(a.kind) && a.nextTrigger <= t then
      match a.kind
      case DailyAlarm =>
        if U32(a.value + PreviousMidnight(t)) <= t
        then a.(nextTrigger := U32(a.value + PreviousMidnight(t) + SECS_PER_DAY))
        else a.(nextTrigger := U32(a.value + PreviousMidnight(t)))
      case WeeklyAlarm =>
        if U32(a.value + PreviousSunday(t)) <= t
        then a.(nextTrigger := U32(a.value + PreviousSunday(t) + SECS_PER_WEEK))
        else a.(nextTrigger := U32(a.value + PreviousSunday(t)))
      case _ => a.(nextTrigger := a.value)
    else a
  }

  /** enable at time t. */
  function Enabled(a: Alarm, t: nat): Alarm {
    if a.kind.NotAllocated? then a
    else if !(UsesAbsoluteValue(a.kind) && a.value == 0) && a.onTick.Some?
    then Updated(a.(isEnabled := true), t)
    else a.(isEnabled := false)
  }

  /** free: the one-shot mark of the slot is not touched. */
  function Freed(a: Alarm): Alarm {
    if a.kind.NotAllocated? then a else FREE.(isOneShot := a.isOneShot)
  }

  predicate Due(a: Alarm, t: nat) {
    a.isEnabled && t >= a.nextTrigger
  }

  /** What one service at time t makes of a slot. */
  function Served(a: Alarm, t: nat): Alarm {
    if !Due(a, t) then a
    else if a.isOneShot then Freed(a)
    else Updated(a, t)
  }

  /** What holds of every slot between calls: an enabled slot is in use and has a handler, a free slot
      has no trigger left over. */
  predicate Consistent(a: Alarm) {
    && (a.isEnabled ==> !a.kind.NotAllocated? && a.onTick.Some?)
    && (a.kind.NotAllocated? ==> a.nextTrigger == 0 && a.value == 0 && a.onTick.None?)
  }

  lemma OperationsKeepConsistent(a: Alarm, t: nat)
    requires Consistent(a)
    ensures Consistent(Updated(a, t)) && Consistent(Enabled(a, t)) && Consistent(Freed(a)) && Consistent(Served(a, t))
  {
  }

  // ----- When a repeating alarm goes off -----

  /** The length of the period of a daily or weekly alarm, and the start of the one that contains t. */
  function Period(kind: AlarmType): nat {
    if kind.DailyAlarm? then SECS_PER_DAY else SECS_PER_WEEK
  }

  function PeriodStart(kind: AlarmType, t: nat): int {
    if kind.DailyAlarm? then PreviousMidnight(t) else PreviousSunday(t)
  }

  /** Periods start at midnight, or at midnight before Sunday; the epoch was a Thursday. */
  function Phase(kind: AlarmType): nat {
    if kind.DailyAlarm? then 0 else 4 * SECS_PER_DAY
  }

  /** The alarm is meant to go off at x. */
  predicate Occurrence(a: Alarm, x: int) {
    (x + Phase(a.kind) - a.value) % Period(a.kind) == 0
  }

  ghost predicate LeastOccurrenceAfter(a: Alarm, t: int, x: int) {
    t < x && Occurrence(a, x) && forall y :: t < y < x ==> !Occurrence(a, y)
  }

  predicate Repeats(kind: AlarmType) {
    kind.DailyAlarm? || kind.WeeklyAlarm?
  }

  lemma StartOfPeriod(kind: AlarmType, t: nat)
    requires Repeats(kind)
    ensures PeriodStart(kind, t) <= t < PeriodStart(kind, t) + Period(kind)
    ensures (PeriodStart(kind, t) + Phase(kind)) % Period(kind) == 0
  {
    if kind.WeeklyAlarm? {
      var d := t / SECS_PER_DAY;
      assert PreviousSunday(t) + 4 * SECS_PER_DAY == SECS_PER_WEEK * ((d + 4) / 7);
      Multiple((d + 4) / 7, SECS_PER_WEEK);
    } else {
      Multiple(t / SECS_PER_DAY, SECS_PER_DAY);
    }
  }

  lemma Multiple(k: int, p: nat)
    requires p == SECS_PER_DAY || p == SECS_PER_WEEK
    ensures p * k % p == 0
  {
  }

  lemma SameClass(x: int, y: int, p: nat)
    requires p == SECS_PER_DAY || p == SECS_PER_WEEK
    requires x % p == 0 && y < x < y + p
    ensures y % p != 0
  {
  }

  lemma ShiftClass(x: int, p: nat)
    requires p == SECS_PER_DAY || p == SECS_PER_WEEK
    ensures (x + p) % p == x % p && (x - p) % p == x % p
  {
    if p == SECS_PER_DAY {
      ShiftDay(x);
      ShiftDay(x - p);
    } else {
      ShiftWeek(x);
      ShiftWeek(x - p);
    }
  }

  lemma ShiftDay(x: int)
    ensures (x + SECS_PER_DAY) % SECS_PER_DAY == x % SECS_PER_DAY
  {
  }

  lemma ShiftWeek(x: int)
    ensures (x + SECS_PER_WEEK) % SECS_PER_WEEK == x % SECS_PER_WEEK
  {
  }

  /** An occurrence with the one before it not after t is the least one after t. */
  lemma LeastIffPreviousPast(a: Alarm, t: int, x: int)
    requires Repeats(a.kind) && Occurrence(a, x) && t < x
    ensures LeastOccurrenceAfter(a, t, x) <==> x - Period(a.kind) <= t
  {
    var p := Period(a.kind);
    var shift: int := Phase(a.kind) - a.value;
    ShiftClass(x + shift, p);
    assert Occurrence(a, x - p);
    forall y | x - p < y < x
      ensures !Occurrence(a, y)
    {
      SameClass(x + shift, y + shift, p);
    }
  }

  /** Midnight or Sunday plus the value, a period later if that is past; in numbers without bound. */
  function Planned(a: Alarm, t: nat): int {
    var x := a.value + PeriodStart(a.kind, t);
    if x <= t then x + Period(a.kind) else x
  }

  /** Neither the sum of value and period start nor the planned time leaves the 32 bits. */
  predicate StaysIn32Bits(a: Alarm, t: nat) {
    0 <= a.value + PeriodStart(a.kind, t) && Planned(a, t) < 0x1_0000_0000
  }

  lemma PlannedIsOccurrence(a: Alarm, t: nat)
    requires Repeats(a.kind)
    ensures Occurrence(a, Planned(a, t))
  {
    hide PreviousMidnight, PreviousSunday;
    StartOfPeriod(a.kind, t);
    ShiftClass(PeriodStart(a.kind, t) + Phase(a.kind), Period(a.kind));
  }

  /** 2^32 seconds are no whole number of days, and neither are 2^33: what has wrapped is no occurrence. */
  lemma WrappedIsNoOccurrence(a: Alarm, x: int, y: int, w: int)
    requires Repeats(a.kind) && Occurrence(a, x) && (w == -1 || w == 1 || w == 2)
    requires y == x - w * 0x1_0000_0000 || y == x - w * 0x1_0000_0000 + Period(a.kind)
          || y == x - w * 0x1_0000_0000 - Period(a.kind)
    ensures !Occurrence(a, y)
  {
    var z := x + Phase(a.kind) - a.value;
    NoMultiple(z, w, Period(a.kind));
    ShiftClass(z - w * 0x1_0000_0000, Period(a.kind));
  }

  lemma NoMultiple(z: int, w: int, p: nat)
    requires (p == SECS_PER_DAY || p == SECS_PER_WEEK) && z % p == 0 && (w == -1 || w == 1 || w == 2)
    ensures (z - w * 0x1_0000_0000) % p != 0
  {
    if p == SECS_PER_DAY {
      NoDay(z / p, w);
    } else {
      NoWeek(z / p, w);
    }
  }

  lemma NoDay(k: int, w: int)
    requires w == -1 || w == 1 || w == 2
    ensures (SECS_PER_DAY * k - w * 0x1_0000_0000) % SECS_PER_DAY != 0
  {
  }

  lemma NoWeek(k: int, w: int)
    requires w == -1 || w == 1 || w == 2
    ensures (SECS_PER_WEEK * k - w * 0x1_0000_0000) % SECS_PER_WEEK != 0
  {
  }

  /** What an unsigned sum keeps, and how often it has wrapped. */
  lemma Wrap(x: int) returns (w: int)
    requires -0x1_0000_0000 <= x < 3 * 0x1_0000_0000
    ensures -1 <= w <= 2 && U32(x) == x - w * 0x1_0000_0000 && 0 <= U32(x) < 0x1_0000_0000
  {
    w := x / 0x1_0000_0000;
  }

  /** The new trigger is the planned time, or a wrap and perhaps a period away from it. */
  lemma UpdatedIsPlanned(a: Alarm, t: nat)
    requires Repeats(a.kind) && a.isEnabled && a.nextTrigger <= t
    requires a.value < 0x1_0000_0000 && t < 0x1_0000_0000
    ensures StaysIn32Bits(a, t) ==> Updated(a, t).nextTrigger == Planned(a, t)
    ensures !StaysIn32Bits(a, t) ==> !Occurrence(a, Updated(a, t).nextTrigger)
  {
    hide PreviousMidnight, PreviousSunday, Occurrence, U32;
    var s, p := PeriodStart(a.kind, t), Period(a.kind);
    StartOfPeriod(a.kind, t);
    var w := Wrap(a.value + s);
    var v := Wrap(a.value + s + p);
    var y := Updated(a, t).nextTrigger;
    assert y == if U32(a.value + s) <= t then U32(a.value + s + p) else U32(a.value + s);
    if !StaysIn32Bits(a, t) {
      PlannedIsOccurrence(a, t);
      WrappedIsNoOccurrence(a, Planned(a, t), y, if U32(a.value + s) <= t then v else w);
    }
  }

  /** For every value and every time of 32 bits: the new trigger of a due repeating alarm is the least
      occurrence after now exactly when no sum overflows and its value lies at most a period beyond now in
      the current period; the library admits daily values up to a day, and weekly values made of a weekday
      and a time of day. */
  lemma UpdatedIsLeastIff(a: Alarm, t: nat)
    requires Repeats(a.kind) && a.isEnabled && a.nextTrigger <= t
    requires a.value < 0x1_0000_0000 && t < 0x1_0000_0000
    ensures LeastOccurrenceAfter(a, t, Updated(a, t).nextTrigger)
       <==> StaysIn32Bits(a, t) && a.value <= Period(a.kind) + (t - PeriodStart(a.kind, t))
  {
    hide PreviousMidnight, PreviousSunday, U32, Updated;
    UpdatedIsPlanned(a, t);
    StartOfPeriod(a.kind, t);
    PlannedIsOccurrence(a, t);
    if StaysIn32Bits(a, t) {
      LeastIffPreviousPast(a, t, Planned(a, t));
    }
  }

  lemma PeriodStartIsNatural(kind: AlarmType, t: nat)
    requires SECS_PER_WEEK <= t
    ensures 0 <= PeriodStart(kind, t)
  {
  }

  lemma UpdatedIsLeast(a: Alarm, t: nat)
    requires Repeats(a.kind) && a.isEnabled && a.nextTrigger <= t && a.value <= Period(a.kind)
    requires SECS_PER_WEEK <= t && a.value + t + SECS_PER_WEEK < 0x1_0000_0000
    ensures LeastOccurrenceAfter(a, t, Updated(a, t).nextTrigger)
  {
    hide Updated, LeastOccurrenceAfter, PreviousMidnight, PreviousSunday;
    UpdatedIsLeastIff(a, t);
    StartOfPeriod(a.kind, t);
    PeriodStartIsNatural(a.kind, t);
  }

  /** Witness: a daily value of three days, which write accepts, is put off by days although its next
      occurrence is tomorrow. */
  lemma LongValueIsLate()
    ensures var a := Alarm(DailyAlarm, true, false, 3 * SECS_PER_DAY, 0, Some(0));
            Updated(a, 100 * SECS_PER_DAY).nextTrigger == 103 * SECS_PER_DAY
            && !LeastOccurrenceAfter(a, 100 * SECS_PER_DAY, 103 * SECS_PER_DAY)
  {
    var a := Alarm(DailyAlarm, true, false, 3 * SECS_PER_DAY, 0, Some(0));
    assert Occurrence(a, 101 * SECS_PER_DAY);
  }

  // ----- Runs of services -----

  /** The slot after services at the given times. */
  function AfterServices(a: Alarm, times: seq<nat>): Alarm
    decreases |times|
  {
    if times == [] then a else AfterServices(Served(a, times[0]), times[1..])
  }

  /** How often its handler was called. */
  function Fired(a: Alarm, times: seq<nat>): nat
    decreases |times|
  {
    if times == [] then 0
    else (if Due(a, times[0]) then 1 else 0) + Fired(Served(a, times[0]), times[1..])
  }

  /** The number of occurrences up to and including t, up to a constant. */
  function OccurrencesUpTo(a: Alarm, t: int): int {
    (t + Phase(a.kind) - a.value) / Period(a.kind)
  }

  /** Times in ascending order from t, each less than a period after the one before, without overflow. */
  ghost predicate Frequent(a: Alarm, t: nat, times: seq<nat>)
    decreases |times|
  {
    times == [] ||
    (t <= times[0] < t + Period(a.kind) && a.value + times[0] + SECS_PER_WEEK < 0x1_0000_0000
     && Frequent(a, times[0], times[1..]))
  }

  function Last(t: nat, times: seq<nat>): nat
    decreases |times|
  {
    if times == [] then t else Last(times[0], times[1..])
  }

  /** x is a multiple of p, t lies in the period before it: the quotient grows at x. */
  lemma Quotients(x: int, t: int, u: int, p: nat)
    requires p == SECS_PER_DAY || p == SECS_PER_WEEK
    requires x % p == 0 && t < x <= t + p && t <= u < t + p
    ensures u / p == t / p + if x <= u then 1 else 0
  {
    if p == SECS_PER_DAY {
      QuotientIs(t, x / p - 1);
      QuotientIs(u, if x <= u then x / p else x / p - 1);
    } else {
      QuotientIsWeek(t, x / p - 1);
      QuotientIsWeek(u, if x <= u then x / p else x / p - 1);
    }
  }

  lemma QuotientIs(t: int, q: int)
    requires q * SECS_PER_DAY <= t < (q + 1) * SECS_PER_DAY
    ensures t / SECS_PER_DAY == q
  {
  }

  lemma QuotientIsWeek(t: int, q: int)
    requires q * SECS_PER_WEEK <= t < (q + 1) * SECS_PER_WEEK
    ensures t / SECS_PER_WEEK == q
  {
  }

  lemma OneService(a: Alarm, t: nat, u: nat)
    requires Repeats(a.kind) && a.isEnabled && !a.isOneShot && a.value <= Period(a.kind)
    requires LeastOccurrenceAfter(a, t, a.nextTrigger)
    requires SECS_PER_WEEK <= t <= u < t + Period(a.kind) && a.value + u + SECS_PER_WEEK < 0x1_0000_0000
    ensures var b := Served(a, u);
            && b == a.(nextTrigger := b.nextTrigger)
            && LeastOccurrenceAfter(b, u, b.nextTrigger)
            && OccurrencesUpTo(a, u) == OccurrencesUpTo(a, t) + if Due(a, u) then 1 else 0
  {
    hide Updated;
    var shift: int := Phase(a.kind) - a.value;
    LeastIffPreviousPast(a, t, a.nextTrigger);
    Quotients(a.nextTrigger + shift, t + shift, u + shift, Period(a.kind));
    UpdatedChangesTrigger(a, u);
    if Due(a, u) {
      UpdatedIsLeast(a, u);
      SameOccurrences(a, Updated(a, u), u);
    } else {
      LeastIffPreviousPast(a, u, a.nextTrigger);
    }
  }

  lemma UpdatedChangesTrigger(a: Alarm, t: nat)
    ensures Updated(a, t) == a.(nextTrigger := Updated(a, t).nextTrigger)
  {
  }

  lemma SameOccurrences(a: Alarm, b: Alarm, t: int)
    requires b == a.(nextTrigger := b.nextTrigger) && LeastOccurrenceAfter(a, t, b.nextTrigger)
    ensures LeastOccurrenceAfter(b, t, b.nextTrigger)
  {
    assert forall y :: Occurrence(b, y) == Occurrence(a, y);
  }

  /** Served more often than once a period, a repeating alarm fires exactly once for each occurrence:
      none is missed and none counted twice. */
  lemma {:induction false} EachOccurrenceFiresOnce(a: Alarm, t: nat, times: seq<nat>)
    requires Repeats(a.kind) && a.isEnabled && !a.isOneShot && a.value <= Period(a.kind)
    requires SECS_PER_WEEK <= t && LeastOccurrenceAfter(a, t, a.nextTrigger) && Frequent(a, t, times)
    ensures Fired(a, times) == OccurrencesUpTo(a, Last(t, times)) - OccurrencesUpTo(a, t)
    decreases |times|
  {
    if times != [] {
      hide Served, LeastOccurrenceAfter, Due;
      OneService(a, t, times[0]);
      var b := Served(a, times[0]);
      FrequentAlike(a, b, times[0], times[1..]);
      EachOccurrenceFiresOnce(b, times[0], times[1..]);
      assert OccurrencesUpTo(a, times[0]) == OccurrencesUpTo(b, times[0]);
    }
  }

  lemma {:induction false} FrequentAlike(a: Alarm, b: Alarm, t: nat, times: seq<nat>)
    requires a.kind == b.kind && a.value == b.value && Frequent(a, t, times)
    ensures Frequent(b, t, times)
    decreases |times|
  {
    if times != [] {
      FrequentAlike(a, b, times[0], times[1..]);
    }
  }

  /** The same from its creation at t on. */
  lemma CreatedAlarmFires(kind: AlarmType, value: nat, handler: nat, t: nat, times: seq<nat>)
    requires Repeats(kind) && SECS_PER_YEAR <= t && value + t + SECS_PER_WEEK < 0x1_0000_0000
    requires var a := Enabled(Alarm(kind, false, false, value, 0, Some(handler)), t);
             value <= Period(kind) && Frequent(a, t, times)
    ensures var a := Enabled(Alarm(kind, false, false, value, 0, Some(handler)), t);
            Fired(a, times) == OccurrencesUpTo(a, Last(t, times)) - OccurrencesUpTo(a, t)
  {
    hide Updated, LeastOccurrenceAfter;
    var a := Alarm(kind, true, false, value, 0, Some(handler));
    UpdatedIsLeast(a, t);
    UpdatedChangesTrigger(a, t);
    SameOccurrences(a, Updated(a, t), t);
    EachOccurrenceFiresOnce(Updated(a, t), t, times);
  }

  /** A one-shot slot fires at most once, whatever the times. */
  lemma {:induction false} OneShotFiresOnce(a: Alarm, times: seq<nat>)
    requires a.isOneShot && !a.kind.NotAllocated?
    ensures Fired(a, times) <= 1
    ensures Fired(a, times) == 1 <==> !AfterServices(a, times).isEnabled && a.isEnabled
    decreases |times|
  {
    if times != [] {
      if Due(a, times[0]) {
        DisabledStays(Served(a, times[0]), times[1..]);
      } else {
        OneShotFiresOnce(a, times[1..]);
      }
    }
  }

  lemma {:induction false} DisabledStays(a: Alarm, times: seq<nat>)
    requires !a.isEnabled
    ensures Fired(a, times) == 0 && AfterServices(a, times) == a
    decreases |times|
  {
    if times != [] {
      DisabledStays(a, times[1..]);
    }
  }

  // ----- At which services a slot fires -----

  /** The slot is enabled exactly if it is in use, has a handler, and its value is not 0 where 0 means nothing. */
  lemma EnabledIff(a: Alarm, t: nat)
    ensures Enabled(a, t).isEnabled <==>
              if a.kind.NotAllocated? then a.isEnabled
              else a.onTick.Some? && (a.kind.DailyAlarm? || a.kind.WeeklyAlarm? || a.value != 0)
  {
  }

  /** Enabling an alarm that is enabled already leaves it alone as long as its trigger is ahead; a timer starts
      again. */
  lemma EnablingAgain(a: Alarm, t: nat)
    requires Consistent(a) && a.isEnabled && t < a.nextTrigger
    requires UsesAbsoluteValue(a.kind) ==> 0 < a.value && t + a.value < 0x1_0000_0000
    ensures Enabled(a, t) == if a.kind.Timer? then a.(nextTrigger := t + a.value) else a
  {
  }

  predicate FiresAt(a: Alarm, times: seq<nat>, i: nat)
    requires i < |times|
  {
    Due(AfterServices(a, times[..i]), times[i])
  }

  /** The last service before number i at which the slot fired, or the moment t. */
  function LastFiring(a: Alarm, t: nat, times: seq<nat>, i: nat): nat
    requires i <= |times|
  {
    if i == 0 then t else if FiresAt(a, times, i - 1) then times[i - 1] else LastFiring(a, t, times, i - 1)
  }

  lemma {:induction false} ServedNext(a: Alarm, times: seq<nat>, i: nat)
    requires i < |times|
    ensures AfterServices(a, times[..i + 1]) == Served(AfterServices(a, times[..i]), times[i])
    decreases i
  {
    hide Served;
    if i == 0 {
      assert times[..1] == [times[0]] && times[..0] == [] && times[..1][1..] == [];
    } else {
      ServedNext(Served(a, times[0]), times[1..], i - 1);
      assert times[..i + 1][1..] == times[1..][..i] && times[..i][1..] == times[1..][..i - 1];
    }
  }

  function Firings(a: Alarm, times: seq<nat>): set<nat> {
    set i: nat | i < |times| && FiresAt(a, times, i)
  }

  /** Counting the firings gives their number. */
  lemma {:induction false} FiredIsNumber(a: Alarm, times: seq<nat>)
    ensures Fired(a, times) == |Firings(a, times)|
    decreases |times|
  {
    hide Served, Due, FiresAt, AfterServices;
    if times == [] {
      assert Firings(a, times) == {};
    } else {
      var k := |times| - 1;
      var front := times[..k];
      assert times == front + [times[k]];
      FiredIsNumber(a, front);
      FiredAppend(a, front, times[k]);
      forall i: nat | i < k
        ensures FiresAt(a, times, i) == FiresAt(a, front, i)
      {
        FiresInFront(a, times, k, i);
      }
      LastFires(a, times, k);
      assert Firings(a, times) == Firings(a, front) + if FiresAt(a, times, k) then {k} else {};
    }
  }

  lemma FiresInFront(a: Alarm, times: seq<nat>, k: nat, i: nat)
    requires i < k <= |times|
    ensures FiresAt(a, times, i) == FiresAt(a, times[..k], i)
  {
    assert times[..k][..i] == times[..i];
  }

  lemma LastFires(a: Alarm, times: seq<nat>, k: nat)
    requires k < |times|
    ensures FiresAt(a, times, k) == Due(AfterServices(a, times[..k]), times[k])
  {
  }

  lemma {:induction false} FiredAppend(a: Alarm, times: seq<nat>, t: nat)
    ensures Fired(a, times + [t]) == Fired(a, times) + if Due(AfterServices(a, times), t) then 1 else 0
    decreases |times|
  {
    hide Served, Due;
    if times == [] {
      assert [t][1..] == [] && times + [t] == [t];
    } else {
      assert (times + [t])[1..] == times[1..] + [t];
      FiredAppend(Served(a, times[0]), times[1..], t);
    }
  }

  /** The times never go back and the sums stay within 32 bits. */
  predicate Ascends(t: nat, times: seq<nat>, value: nat) {
    && (forall i :: 0 <= i < |times| ==> t <= times[i] && times[i] + value < 0x1_0000_0000)
    && (forall i, j :: 0 <= i < j < |times| ==> times[i] <= times[j])
  }

  /** A timer as enable leaves it at t goes off value seconds later and not before. */
  lemma TimerIsDue(a: Alarm, t: nat, x: nat)
    requires a.kind.Timer? && a.value > 0 && a.onTick.Some? && t + a.value < 0x1_0000_0000
    ensures var b := Enabled(a, t);
            b.isEnabled && b == a.(isEnabled := true, nextTrigger := b.nextTrigger) && (Due(b, x) <==> t + a.value <= x)
  {
  }

  /** A repeating timer fires at a service exactly if its value, and no less, has passed since it fired last, or
      since it was enabled. */
  lemma TimerFiresIff(a: Alarm, t: nat, times: seq<nat>, i: nat)
    requires a.kind.Timer? && a.value > 0 && a.onTick.Some? && !a.isOneShot && t + a.value < 0x1_0000_0000
    requires Ascends(t, times, a.value) && i < |times|
    ensures var b := Enabled(a, t);
            FiresAt(b, times, i) <==> LastFiring(b, t, times, i) + a.value <= times[i]
  {
    TimerAfter(a, t, times, i);
  }

  lemma {:induction false} TimerAfter(a: Alarm, t: nat, times: seq<nat>, i: nat)
    requires a.kind.Timer? && a.value > 0 && a.onTick.Some? && !a.isOneShot && t + a.value < 0x1_0000_0000
    requires Ascends(t, times, a.value) && i <= |times|
    ensures var b := Enabled(a, t);
            var c := AfterServices(b, times[..i]);
            c == b.(nextTrigger := LastFiring(b, t, times, i) + a.value) && c.isEnabled
    ensures LastFiring(Enabled(a, t), t, times, i) == t || LastFiring(Enabled(a, t), t, times, i) in times
    decreases i
  {
    hide Enabled, AfterServices;
    TimerIsDue(a, t, 0);
    var b := Enabled(a, t);
    if i == 0 {
      NoServices(b, times);
      TimerIsDue(a, t, b.nextTrigger);
      TimerIsDue(a, t, t + a.value);
    } else {
      TimerAfter(a, t, times, i - 1);
      ServedNext(b, times, i - 1);
      assert times[i - 1] in times;
    }
  }

  lemma NoServices(a: Alarm, times: seq<nat>)
    ensures AfterServices(a, times[..0]) == a
  {
  }

  /** So between two firings there is at least the value. */
  lemma TimerFiringsApart(a: Alarm, t: nat, times: seq<nat>, i: nat, j: nat)
    requires a.kind.Timer? && a.value > 0 && a.onTick.Some? && !a.isOneShot && t + a.value < 0x1_0000_0000
    requires Ascends(t, times, a.value) && i < j < |times|
    requires FiresAt(Enabled(a, t), times, i) && FiresAt(Enabled(a, t), times, j)
    ensures times[i] + a.value <= times[j]
  {
    hide Enabled, FiresAt;
    TimerFiresIff(a, t, times, j);
    LastFiringIsLate(Enabled(a, t), t, times, i, j);
  }

  lemma {:induction false} LastFiringIsLate(a: Alarm, t: nat, times: seq<nat>, i: nat, j: nat)
    requires i < j <= |times| && FiresAt(a, times, i) && forall k, l :: 0 <= k < l < |times| ==> times[k] <= times[l]
    ensures LastFiring(a, t, times, j) >= times[i]
    decreases j
  {
    hide FiresAt;
    if j - 1 > i && !FiresAt(a, times, j - 1) { LastFiringIsLate(a, t, times, i, j - 1); }
  }

  /** A one-shot slot of any kind fires at the first service that finds it due, and at no other; from then on it is
      free. */
  lemma {:induction false} OneShotFiresAtFirst(a: Alarm, times: seq<nat>, i: nat)
    requires a.isOneShot && !a.kind.NotAllocated? && a.isEnabled && i < |times|
    ensures FiresAt(a, times, i) <==> a.nextTrigger <= times[i] && forall j :: 0 <= j < i ==> times[j] < a.nextTrigger
    ensures FiresAt(a, times, i) ==> AfterServices(a, times[..i + 1]) == FREE.(isOneShot := true)
    decreases i
  {
    hide Served;
    OneShotAfter(a, times, i);
    OneShotAfter(a, times, i + 1);
  }

  lemma {:induction false} OneShotAfter(a: Alarm, times: seq<nat>, i: nat)
    requires a.isOneShot && !a.kind.NotAllocated? && a.isEnabled && i <= |times|
    ensures var c := AfterServices(a, times[..i]);
            if forall j :: 0 <= j < i ==> times[j] < a.nextTrigger then c == a else c == FREE.(isOneShot := true)
    decreases i
  {
    if i == 0 {
      NoServices(a, times);
    } else {
      hide AfterServices;
      OneShotAfter(a, times, i - 1);
      ServedNext(a, times, i - 1);
    }
  }

  /** An alarm for an explicit date, or a timer, created at t as a one-shot: it fires at the first service at or
      after its date, or after the end of its time, and at no other. */
  lemma CreatedOnceFiresAt(kind: AlarmType, value: nat, handler: nat, t: nat, times: seq<nat>, i: nat)
    requires UsesAbsoluteValue(kind) && 0 < value && t + value < 0x1_0000_0000 && i < |times|
    ensures var a := Enabled(Alarm(kind, false, true, value, 0, Some(handler)), t);
            var moment := if kind.Timer? then t + value else value;
            FiresAt(a, times, i) <==> moment <= times[i] && forall j :: 0 <= j < i ==> times[j] < moment
  {
    hide FiresAt;
    var a := Enabled(Alarm(kind, false, true, value, 0, Some(handler)), t);
    OneShotFiresAtFirst(a, times, i);
  }

  /** A daily or weekly one-shot fires at the first service at or after the next occurrence, and at no other. */
  lemma CreatedRepeatOnceFiresAt(kind: AlarmType, value: nat, handler: nat, t: nat, times: seq<nat>, i: nat, next: int)
    requires Repeats(kind) && value <= Period(kind) && i < |times|
    requires SECS_PER_YEAR <= t && value + t + SECS_PER_WEEK < 0x1_0000_0000
    requires LeastOccurrenceAfter(Alarm(kind, true, true, value, 0, Some(handler)), t, next)
    ensures var a := Enabled(Alarm(kind, false, true, value, 0, Some(handler)), t);
            FiresAt(a, times, i) <==> next <= times[i] && forall j :: 0 <= j < i ==> times[j] < next
  {
    hide FiresAt, Updated, LeastOccurrenceAfter;
    var a := Alarm(kind, true, true, value, 0, Some(handler));
    UpdatedIsLeast(a, t);
    UpdatedChangesTrigger(a, t);
    LeastIsUnique(a, t, next, Updated(a, t).nextTrigger);
    OneShotFiresAtFirst(Updated(a, t), times, i);
  }

  lemma LeastIsUnique(a: Alarm, t: int, x: int, y: int)
    requires LeastOccurrenceAfter(a, t, x) && LeastOccurrenceAfter(a, t, y)
    ensures x == y
  {
  }

  // ----- The next trigger -----

  predicate Allocated(a: Alarm) {
    !a.kind.NotAllocated?
  }

  /** t is the least trigger of the slots in use, whether they are enabled or not. */
  predicate LeastAllocated(slots: seq<Alarm>, t: nat) {
    && (exists i :: 0 <= i < |slots| && Allocated(slots[i]) && slots[i].nextTrigger == t)
    && (forall i :: 0 <= i < |slots| && Allocated(slots[i]) ==> t <= slots[i].nextTrigger)
  }

  /** t is when the next alarm is due. */
  predicate LeastEnabled(slots: seq<Alarm>, t: nat) {
    && (exists i :: 0 <= i < |slots| && slots[i].isEnabled && slots[i].nextTrigger == t)
    && (forall i :: 0 <= i < |slots| && slots[i].isEnabled ==> t <= slots[i].nextTrigger)
  }

  /** A disabled alarm has kept a trigger before those of all enabled ones. */
  predicate DisabledFirst(slots: seq<Alarm>) {
    exists j :: 0 <= j < |slots| && Allocated(slots[j]) && !slots[j].isEnabled &&
      forall i :: 0 <= i < |slots| && slots[i].isEnabled ==> slots[j].nextTrigger < slots[i].nextTrigger
  }

  /** The least trigger in use is that of the next alarm exactly if no disabled alarm comes before it. */
  lemma NextIsEnabledIff(slots: seq<Alarm>, t: nat)
    requires LeastAllocated(slots, t) && (forall i :: 0 <= i < |slots| ==> Consistent(slots[i]))
    requires exists i :: 0 <= i < |slots| && slots[i].isEnabled
    ensures LeastEnabled(slots, t) <==> !DisabledFirst(slots)
  {
    var k :| 0 <= k < |slots| && Allocated(slots[k]) && slots[k].nextTrigger == t;
    if !LeastEnabled(slots, t) {
      assert forall i :: 0 <= i < |slots| && slots[i].isEnabled ==> Consistent(slots[i]) && t < slots[i].nextTrigger;
      assert DisabledFirst(slots);
    }
  }

  const LATEST: nat := 0xFFFF_FFFF

  predicate SomeEnabled(slots: seq<Alarm>) {
    exists i :: 0 <= i < |slots| && slots[i].isEnabled
  }

  predicate SomeBefore(slots: seq<Alarm>, limit: nat) {
    exists i :: 0 <= i < |slots| && Allocated(slots[i]) && slots[i].nextTrigger < limit
  }

  /** What getNextTrigger returns: the least trigger in use, or 0 if there is none below the last moment. */
  predicate Returned(slots: seq<Alarm>, t: nat) {
    if SomeBefore(slots, LATEST) then LeastAllocated(slots, t) else t == 0
  }

  /** What it is to return: when the next alarm is due, or 0 if none is scheduled. */
  predicate NextOrNone(slots: seq<Alarm>, t: nat) {
    if SomeEnabled(slots) then LeastEnabled(slots, t) else t == 0
  }

  /** The least trigger in use lies between the first moment and the last, both excluded. */
  predicate Announces(slots: seq<Alarm>) {
    exists i :: 0 <= i < |slots| && Allocated(slots[i]) && 0 < slots[i].nextTrigger < LATEST &&
      forall j :: 0 <= j < |slots| && Allocated(slots[j]) ==> slots[i].nextTrigger <= slots[j].nextTrigger
  }

  /** With an alarm enabled the result is right exactly if no disabled one comes first and the least trigger is not
      the last moment; with none it is the promised 0 exactly if no slot in use announces a trigger. */
  lemma NextOrNoneIff(slots: seq<Alarm>, t: nat)
    requires Returned(slots, t) && (forall i :: 0 <= i < |slots| ==> Consistent(slots[i]))
    ensures NextOrNone(slots, t) <==>
              if SomeEnabled(slots) then !DisabledFirst(slots) && SomeBefore(slots, LATEST) else !Announces(slots)
  {
    hide LeastAllocated, LeastEnabled, DisabledFirst, SomeBefore, SomeEnabled, Announces;
    if SomeEnabled(slots) {
      if SomeBefore(slots, LATEST) {
        EnabledIsThere(slots);
        NextIsEnabledIff(slots, t);
      } else {
        ZeroIsNotLeast(slots);
      }
    } else {
      ZeroIff(slots, t);
    }
  }

  lemma EnabledIsThere(slots: seq<Alarm>)
    requires SomeEnabled(slots)
    ensures exists i :: 0 <= i < |slots| && slots[i].isEnabled
  {
  }

  lemma ZeroIsNotLeast(slots: seq<Alarm>)
    requires !SomeBefore(slots, LATEST) && (forall i :: 0 <= i < |slots| ==> Consistent(slots[i]))
    ensures !LeastEnabled(slots, 0)
  {
    if LeastEnabled(slots, 0) {
      var i :| 0 <= i < |slots| && slots[i].isEnabled && slots[i].nextTrigger == 0;
      assert Consistent(slots[i]) && Allocated(slots[i]);
    }
  }

  lemma ZeroIff(slots: seq<Alarm>, t: nat)
    requires Returned(slots, t)
    ensures t == 0 <==> !Announces(slots)
  {
    if SomeBefore(slots, LATEST) {
      var k :| 0 <= k < |slots| && Allocated(slots[k]) && slots[k].nextTrigger == t;
      var b :| 0 <= b < |slots| && Allocated(slots[b]) && slots[b].nextTrigger < LATEST;
      assert t <= slots[b].nextTrigger;
      if t == 0 {
        forall i | 0 <= i < |slots| && Allocated(slots[i]) && 0 < slots[i].nextTrigger
          ensures !(slots[i].nextTrigger <= slots[k].nextTrigger)
        {
        }
      }
    }
  }

  /** One timer, disabled: its trigger is returned although nothing is scheduled. */
  lemma DisabledAlone()
    ensures var slots := [Alarm(Timer, false, false, 10, 500, Some(1))];
            Consistent(slots[0]) && Returned(slots, 500) && !SomeEnabled(slots) && !NextOrNone(slots, 500)
  {
    var slots := [Alarm(Timer, false, false, 10, 500, Some(1))];
    assert Allocated(slots[0]) && slots[0].nextTrigger == 500;
  }

  /** Two timers, and the first of them disabled: its trigger is still taken for the next. */
  lemma DisabledIsCounted()
    ensures var slots := [Alarm(Timer, false, false, 10, 500, Some(1)), Alarm(Timer, true, false, 60, 900, Some(2))];
            && Consistent(slots[0]) && Consistent(slots[1])
            && LeastAllocated(slots, 500) && !LeastEnabled(slots, 500) && LeastEnabled(slots, 900)
  {
    var slots := [Alarm(Timer, false, false, 10, 500, Some(1)), Alarm(Timer, true, false, 60, 900, Some(2))];
    assert Allocated(slots[0]) && slots[0].nextTrigger == 500;
    assert slots[1].isEnabled && slots[1].nextTrigger == 900;
  }
}

module AlarmPool {
  import opened Calendar
  import opened AlarmSpec
  import opened Words

  const NBR_ALARMS: nat := 6
  const INVALID_ALARM_ID: nat := 255

  class TimeAlarms {
    const alarms: array<Alarm>
    var isServicing: bool

    predicate Valid()
      reads this, alarms
    {
      alarms.Length == NBR_ALARMS && !isServicing && forall i :: 0 <= i < NBR_ALARMS ==> Consistent(alarms[i])
    }

    constructor ()
      ensures Valid() && fresh(alarms)
      ensures forall i :: 0 <= i < NBR_ALARMS ==> alarms[i] == FREE
    {
      alarms := new Alarm[NBR_ALARMS](_ => FREE);
      isServicing := false;
    }

    predicate IsAllocated(id: nat)
      requires alarms.Length == NBR_ALARMS
      reads this, alarms
    {
      id < NBR_ALARMS && !alarms[id].kind.NotAllocated?
    }

    /** updateNextTrigger, field by field. */
    method UpdateNextTrigger(id: nat, now: nat)
      requires alarms.Length == NBR_ALARMS && id < NBR_ALARMS
      modifies alarms
      ensures alarms[..] == old(alarms[..])[id := Updated(old(alarms[id]), now)]
    {
      var a := alarms[id];
      if a.isEnabled {
        if IsAlarm(a.kind) && a.nextTrigger <= now {
          if a.kind.ExplicitAlarm? {
            a := a.(nextTrigger := a.value);
          } else if a.kind.DailyAlarm? {
            if U32(a.value + PreviousMidnight(now)) <= now {
              a := a.(nextTrigger := U32(a.value + PreviousMidnight(now) + SECS_PER_DAY));
            } else {
              a := a.(nextTrigger := U32(a.value + PreviousMidnight(now)));
            }
          } else {
            if U32(a.value + PreviousSunday(now)) <= now {
              a := a.(nextTrigger := U32(a.value + PreviousSunday(now) + SECS_PER_WEEK));
            } else {
              a := a.(nextTrigger := U32(a.value + PreviousSunday(now)));
            }
          }
        }
        if a.kind.Timer? {
          a := a.(nextTrigger := U32(now + a.value));
        }
      }
      alarms[id] := a;
    }

    method Enable(id: nat, now: nat)
      requires Valid()
      modifies alarms
      ensures Valid()
      ensures alarms[..] == if id < NBR_ALARMS then old(alarms[..])[id := Enabled(old(alarms[id]), now)]
                            else old(alarms[..])
    {
      if IsAllocated(id) {
        var a := alarms[id];
        OperationsKeepConsistent(a, now);
        if !(UsesAbsoluteValue(a.kind) && a.value == 0) && a.onTick.Some? {
          alarms[id] := a.(isEnabled := true);
          UpdateNextTrigger(id, now);
        } else {
          alarms[id] := a.(isEnabled := false);
        }
      }
    }

    method Disable(id: nat)
      requires Valid()
      modifies alarms
      ensures Valid()
      ensures alarms[..] == if id < NBR_ALARMS then old(alarms[..])[id := old(alarms[id]).(isEnabled := false)]
                            else old(alarms[..])
    {
      if IsAllocated(id) {
        alarms[id] := alarms[id].(isEnabled := false);
      }
    }

    method Release(id: nat)
      requires Valid()
      modifies alarms
      ensures Valid()
      ensures alarms[..] == if id < NBR_ALARMS then old(alarms[..])[id := Freed(old(alarms[id]))]
                            else old(alarms[..])
    {
      if IsAllocated(id) {
        alarms[id] := alarms[id].(isEnabled := false, kind := NotAllocated, onTick := None, value := 0,
                                  nextTrigger := 0);
      }
    }

    /** write: a new value clears the old trigger, so the alarm is scheduled afresh. */
    method Write(id: nat, value: nat, now: nat)
      requires Valid()
      modifies alarms
      ensures Valid()
      ensures alarms[..] ==
              if id < NBR_ALARMS && !old(alarms[id]).kind.NotAllocated?
              then old(alarms[..])[id := Enabled(old(alarms[id]).(value := value, nextTrigger := 0), now)]
              else old(alarms[..])
    {
      if IsAllocated(id) {
        alarms[id] := alarms[id].(value := value, nextTrigger := 0);
        Enable(id, now);
      }
    }

    /** create: the first free slot, unless the clock is unset or the value is missing. */
    method Create(value: nat, onTick: Option<nat>, isOneShot: bool, kind: AlarmType, now: nat) returns (id: nat)
      requires Valid() && !kind.NotAllocated?
      modifies alarms
      ensures Valid()
      ensures id == INVALID_ALARM_ID || (id < NBR_ALARMS && old(alarms[id]).kind.NotAllocated?)
      ensures id == INVALID_ALARM_ID <==>
                || (IsAlarm(kind) && now < SECS_PER_YEAR) || (UsesAbsoluteValue(kind) && value == 0)
                || forall i :: 0 <= i < NBR_ALARMS ==> !old(alarms[i]).kind.NotAllocated?
      ensures id != INVALID_ALARM_ID ==> forall i :: 0 <= i < id ==> !old(alarms[i]).kind.NotAllocated?
      ensures alarms[..] == if id == INVALID_ALARM_ID then old(alarms[..]) else
                old(alarms[..])[id := Enabled(Alarm(kind, false, isOneShot, value, 0, onTick), now)]
    {
      if !((IsAlarm(kind) && now < SECS_PER_YEAR) || (UsesAbsoluteValue(kind) && value == 0)) {
        var slot := 0;
        while slot < NBR_ALARMS
          invariant slot <= NBR_ALARMS
          invariant forall i :: 0 <= i < slot ==> !alarms[i].kind.NotAllocated?
        {
          if alarms[slot].kind.NotAllocated? {
            alarms[slot] := alarms[slot].(onTick := onTick, isOneShot := isOneShot, kind := kind, value := value);
            Enable(slot, now);
            return slot;
          }
          slot := slot + 1;
        }
      }
      return INVALID_ALARM_ID;
    }

    /** serviceAlarms at one instant: every slot is served, and the due ones are reported in order. */
    method ServiceAlarms(now: nat) returns (fired: seq<nat>)
      requires Valid()
      modifies this, alarms
      ensures Valid()
      ensures forall i :: 0 <= i < NBR_ALARMS ==> alarms[i] == Served(old(alarms[i]), now)
      ensures forall i :: i in fired <==> 0 <= i < NBR_ALARMS && Due(old(alarms[i]), now)
      ensures forall i, j :: 0 <= i < j < |fired| ==> fired[i] < fired[j]
    {
      fired := [];
      isServicing := true;
      var id := 0;
      while id < NBR_ALARMS
        invariant id <= NBR_ALARMS && alarms.Length == NBR_ALARMS
        invariant forall i :: 0 <= i < id ==> alarms[i] == Served(old(alarms[i]), now)
        invariant forall i :: id <= i < NBR_ALARMS ==> alarms[i] == old(alarms[i])
        invariant forall i :: i in fired <==> 0 <= i < id && Due(old(alarms[i]), now)
        invariant forall i, j :: 0 <= i < j < |fired| ==> fired[i] < fired[j]
        invariant forall j :: 0 <= j < |fired| ==> fired[j] < id
      {
        ghost var a := alarms[id];
        if alarms[id].isEnabled && now >= alarms[id].nextTrigger {
          var tickHandler := alarms[id].onTick;
          if alarms[id].isOneShot {
            alarms[id] := Freed(alarms[id]);
          } else {
            UpdateNextTrigger(id, now);
          }
          if tickHandler.Some? {
            fired := fired + [id];
          }
        }
        OperationsKeepConsistent(a, now);
        id := id + 1;
      }
      isServicing := false;
    }

    /** getNextTrigger: the earliest trigger among the slots in use, 0 if there is none.  Slots in use
        but disabled take part as well. */
    method GetNextTrigger() returns (t: nat)
      requires Valid()
      requires forall i :: 0 <= i < NBR_ALARMS ==> alarms[i].nextTrigger < 0x1_0000_0000
      ensures (forall i :: 0 <= i < NBR_ALARMS && IsAllocated(i) ==> alarms[i].nextTrigger == 0xFFFF_FFFF) ==> t == 0
      ensures (exists i :: 0 <= i < NBR_ALARMS && IsAllocated(i) && alarms[i].nextTrigger < 0xFFFF_FFFF) ==>
                && (exists i :: 0 <= i < NBR_ALARMS && IsAllocated(i) && alarms[i].nextTrigger == t)
                && forall i :: 0 <= i < NBR_ALARMS && IsAllocated(i) ==> t <= alarms[i].nextTrigger
      ensures Returned(alarms[..], t)
      ensures NextOrNone(alarms[..], t) <==>
                if SomeEnabled(alarms[..]) then !DisabledFirst(alarms[..]) && SomeBefore(alarms[..], LATEST)
                else !Announces(alarms[..])
    {
      var next := 0xFFFF_FFFF;
      var id := 0;
      while id < NBR_ALARMS
        invariant id <= NBR_ALARMS && next <= 0xFFFF_FFFF
        invariant forall i :: 0 <= i < id && IsAllocated(i) ==> next <= alarms[i].nextTrigger
        invariant next < 0xFFFF_FFFF ==> exists i :: 0 <= i < id && IsAllocated(i) && alarms[i].nextTrigger == next
      {
        if IsAllocated(id) {
          if alarms[id].nextTrigger < next {
            next := alarms[id].nextTrigger;
          }
        }
        id := id + 1;
      }
      t := if next == 0xFFFF_FFFF then 0 else next;
      ghost var slots := alarms[..];
      assert forall i :: 0 <= i < NBR_ALARMS ==> IsAllocated(i) == Allocated(slots[i]);
      assert Returned(slots, t);
      hide Returned, NextOrNone, DisabledFirst, SomeBefore, SomeEnabled, Announces;
      NextOrNoneIff(slots, t);
    }
  }
}
