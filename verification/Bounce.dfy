/** The default debouncer: a new level counts once it was read, and nothing else, for the whole interval. */
module BounceSpec {
  import opened Words

  datatype Debouncer = Debouncer(previous: nat, debounced: bool, unstable: bool, changed: bool)

  /** A reading of the pin, the time it is taken at, which never wraps, and the interval then in force. */
  datatype Sample = Sample(level: bool, at: nat, interval: nat)

  function Attached(s: Sample): Debouncer {
    Debouncer(U32(s.at), s.level, s.level, false)
  }

  function Updated(d: Debouncer, s: Sample): Debouncer {
    var now := U32(s.at);
    if s.level != d.unstable then Debouncer(now, d.debounced, s.level, false)
    else if U32(now - d.previous) >= s.interval && s.level != d.debounced then Debouncer(now, s.level, d.unstable, true)
    else d.(changed := false)
  }

  /** A run: the reading at attach, and one for every update since. */
  predicate InOrder(h: seq<Sample>) {
    |h| > 0 && forall i, j :: 0 <= i <= j < |h| ==> h[i].at <= h[j].at
  }

  function After(h: seq<Sample>): Debouncer
    requires |h| > 0
    decreases |h|
  {
    if |h| == 1 then Attached(h[0]) else Updated(After(h[..|h| - 1]), h[|h| - 1])
  }

  /** The debouncer after sample i. */
  function Then(h: seq<Sample>, i: nat): Debouncer
    requires i < |h|
  {
    After(h[..i + 1])
  }

  lemma ThenFirst(h: seq<Sample>)
    requires |h| > 0
    ensures Then(h, 0) == Attached(h[0])
  {
    assert h[..1][0] == h[0];
  }

  lemma ThenNext(h: seq<Sample>, i: nat)
    requires i + 1 < |h|
    ensures Then(h, i + 1) == Updated(Then(h, i), h[i + 1])
  {
    assert h[..i + 2][..i + 1] == h[..i + 1];
  }

  /** The first of the samples up to i that have read what sample i reads, without a break. */
  function LastFlip(h: seq<Sample>, i: nat): (f: nat)
    requires i < |h|
    ensures f <= i && forall k :: f <= k <= i ==> h[k].level == h[i].level
  {
    if i == 0 || h[i].level != h[i - 1].level then i else LastFlip(h, i - 1)
  }

  /** Sample i reads what was read before, and has for an interval, as the millisecond counter shows it. */
  predicate Settled(h: seq<Sample>, i: nat)
    requires i < |h|
  {
    LastFlip(h, i) < i && U32(h[i].at - h[LastFlip(h, i)].at) >= h[i].interval
  }

  /** The level of the last settled sample, or that at attach. */
  function SettledLevel(h: seq<Sample>, i: nat): bool
    requires i < |h|
  {
    if i == 0 || Settled(h, i) then h[i].level else SettledLevel(h, i - 1)
  }

  /** What the debouncer has kept of the samples: while it waits for a new level to settle, when it came up. */
  lemma {:induction false} Remembers(h: seq<Sample>, i: nat)
    requires InOrder(h) && i < |h|
    ensures Then(h, i).unstable == h[i].level && Then(h, i).debounced == SettledLevel(h, i)
    ensures h[i].level != SettledLevel(h, i) ==> Then(h, i).previous == U32(h[LastFlip(h, i)].at)
    ensures i == 0 ==> !Then(h, 0).changed
    decreases i
  {
    hide Then, U32;
    if i == 0 {
      ThenFirst(h);
    } else {
      ThenNext(h, i - 1);
      Remembers(h, i - 1);
      WrappedElapsed(h[LastFlip(h, i - 1)].at, h[i].at);
    }
  }

  lemma WrappedElapsed(from: nat, to: nat)
    requires from <= to
    ensures U32(U32(to) - U32(from)) == U32(to - from) <= to - from
  {
  }

  /** In terms of the samples alone: the debounced level is that of the last settled sample, and an update
      reports a change exactly when its sample is settled at another level than the one before. */
  lemma ChangeIff(h: seq<Sample>, i: nat)
    requires InOrder(h) && 0 < i < |h|
    ensures Then(h, i).changed <==> Settled(h, i) && h[i].level != SettledLevel(h, i - 1)
    ensures Then(h, i).debounced == SettledLevel(h, i)
    ensures Then(h, i).changed <==> Then(h, i).debounced != Then(h, i - 1).debounced
  {
    ThenNext(h, i - 1);
    Remembers(h, i - 1);
    Remembers(h, i);
    WrappedElapsed(h[LastFlip(h, i - 1)].at, h[i].at);
    hide U32;
  }

  /** A change is never reported on a bounce: some sample at least an interval ago, and every sample since,
      read the level that is now the debounced one, which it was not before. */
  lemma ChangeIsStable(h: seq<Sample>, i: nat) returns (r: nat)
    requires InOrder(h) && 0 < i < |h| && Then(h, i).changed
    ensures r < i && h[r].at + h[i].interval <= h[i].at
    ensures forall k :: r <= k <= i ==> h[k].level == Then(h, i).debounced
    ensures Then(h, i - 1).debounced != Then(h, i).debounced
  {
    ChangeIff(h, i);
    r := LastFlip(h, i);
    WrappedElapsed(h[r].at, h[i].at);
  }

  // ----- Rising and falling -----

  predicate Rose(d: Debouncer) {
    d.debounced && d.changed
  }

  predicate Fell(d: Debouncer) {
    !d.debounced && d.changed
  }

  lemma {:induction false} HoldsWithoutChange(h: seq<Sample>, i: nat, j: nat)
    requires InOrder(h) && i <= j < |h| && forall k :: i < k <= j ==> !Then(h, k).changed
    ensures Then(h, j).debounced == Then(h, i).debounced
    decreases j
  {
    if i < j {
      ChangeIff(h, j);
      HoldsWithoutChange(h, i, j - 1);
    }
  }

  /** The last change before j, if there is one after i. */
  function LastChange(h: seq<Sample>, i: nat, j: nat): (c: nat)
    requires i <= j < |h|
    ensures i <= c <= j && (c > i ==> Then(h, c).changed) && forall k :: c < k <= j ==> !Then(h, k).changed
    decreases j
  {
    if i == j || Then(h, j).changed then j else LastChange(h, i, j - 1)
  }

  /** Between two reports of the same edge there is one of the other: rises and falls alternate. */
  lemma EdgesAlternate(h: seq<Sample>, i: nat, j: nat) returns (k: nat)
    requires InOrder(h) && i < j < |h|
    requires (Rose(Then(h, i)) && Rose(Then(h, j))) || (Fell(Then(h, i)) && Fell(Then(h, j)))
    ensures i < k < j && if Rose(Then(h, i)) then Fell(Then(h, k)) else Rose(Then(h, k))
  {
    ChangeIff(h, j);
    k := LastChange(h, i, j - 1);
    HoldsWithoutChange(h, k, j - 1);
  }

  /** The first edge leaves the level read at attach. */
  lemma FirstEdge(h: seq<Sample>, j: nat)
    requires InOrder(h) && 0 < j < |h| && Then(h, j).changed && forall k :: 0 < k < j ==> !Then(h, k).changed
    ensures Rose(Then(h, j)) <==> !h[0].level
  {
    ChangeIff(h, j);
    HoldsWithoutChange(h, 0, j - 1);
  }
}

/** The object on the board. */
module Bounce {
  import opened BounceSpec
  import opened Words

  class Button {
    var previousMillis: nat
    var intervalMillis: nat
    var debouncedState: bool
    var unstableState: bool
    var changedState: bool

    constructor ()
      ensures View() == Debouncer(0, false, false, false) && intervalMillis == 10
    {
      previousMillis := 0;
      intervalMillis := 10;
      debouncedState := false;
      unstableState := false;
      changedState := false;
    }

    function View(): Debouncer
      reads this
    {
      Debouncer(previousMillis, debouncedState, unstableState, changedState)
    }

    method Interval(interval: nat)
      requires interval < 0x1_0000
      modifies this`intervalMillis
      ensures intervalMillis == interval
    {
      intervalMillis := interval;
    }

    /** `level` is what the pin reads, and `at` the time, of which millis() shows 32 bits. */
    method Attach(level: bool, at: nat)
      modifies this`previousMillis, this`debouncedState, this`unstableState, this`changedState
      ensures View() == Attached(Sample(level, at, intervalMillis))
    {
      debouncedState := false;
      unstableState := false;
      changedState := false;
      if level {
        debouncedState := true;
        unstableState := true;
      }
      previousMillis := U32(at);
    }

    method Update(level: bool, at: nat) returns (changed: bool)
      modifies this`previousMillis, this`debouncedState, this`unstableState, this`changedState
      ensures View() == Updated(old(View()), Sample(level, at, intervalMillis))
      ensures changed == View().changed
    {
      changedState := false;
      if level != unstableState {
        previousMillis := U32(at);
        unstableState := !unstableState;
      } else if U32(U32(at) - previousMillis) >= intervalMillis {
        if level != debouncedState {
          previousMillis := U32(at);
          debouncedState := !debouncedState;
          changedState := true;
        }
      }
      return changedState;
    }

    method ReadRose() returns (rose: bool)
      ensures rose == Rose(View())
    {
      return debouncedState && changedState;
    }

    method ReadFell() returns (fell: bool)
      ensures fell == Fell(View())
    {
      return !debouncedState && changedState;
    }
  }
}
