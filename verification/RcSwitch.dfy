/**
 Remote-control codes on a 433 MHz carrier: how a code becomes a train of pulses, and how the train of
 durations between edges becomes the code again. Integers are those of an AVR: int has 16 bits, long 32.
 */
module RcSwitchSpec {
  import opened Words

  /** Two successive levels of the line, in pulse lengths. */
  datatype HighLow = HighLow(high: nat, low: nat)

  datatype Protocol = Protocol(pulse: nat, sync: HighLow, zero: HighLow, one: HighLow, inverted: bool)

  const PROTOCOLS: seq<Protocol> := [
    Protocol(350, HighLow(1, 31), HighLow(1, 3), HighLow(3, 1), false),
    Protocol(650, HighLow(1, 10), HighLow(1, 2), HighLow(2, 1), false),
    Protocol(100, HighLow(30, 71), HighLow(4, 11), HighLow(9, 6), false),
    Protocol(380, HighLow(1, 6), HighLow(1, 3), HighLow(3, 1), false),
    Protocol(500, HighLow(6, 14), HighLow(1, 2), HighLow(2, 1), false),
    Protocol(450, HighLow(23, 1), HighLow(1, 2), HighLow(2, 1), true),
    Protocol(150, HighLow(2, 62), HighLow(1, 6), HighLow(6, 1), false)]

  const MAX_CHANGES: nat := 67
  const SEPARATION_LIMIT: nat := 4300
  const TOLERANCE: nat := 60

  // ----- Sending -----

  /** A level the line keeps for some microseconds. */
  datatype Segment = Segment(high: bool, micros: nat)

  function Transmitted(pro: Protocol, pulses: HighLow): seq<Segment> {
    [Segment(!pro.inverted, U16(pro.pulse * pulses.high)), Segment(pro.inverted, U16(pro.pulse * pulses.low))]
  }

  function PulsesOf(pro: Protocol, bit: nat): HighLow {
    if bit == 0 then pro.zero else pro.one
  }

  /** The last n bits of the code, the most significant first. */
  function Data(pro: Protocol, code: nat, n: nat): (s: seq<Segment>)
    ensures |s| == 2 * n
  {
    if n == 0 then [] else Data(pro, code / 2, n - 1) + Transmitted(pro, PulsesOf(pro, code % 2))
  }

  /** One repetition: the data, then the synchronisation pulses. */
  function Train(pro: Protocol, code: nat, n: nat): (s: seq<Segment>)
    ensures |s| == 2 * n + 2
  {
    Data(pro, code, n) + Transmitted(pro, pro.sync)
  }

  function Repeated(train: seq<Segment>, times: nat): seq<Segment> {
    if times == 0 then [] else Repeated(train, times - 1) + train
  }

  function Pow2(k: nat): (p: nat)
    ensures p > 0
  {
    if k == 0 then 1 else 2 * Pow2(k - 1)
  }

  /** The code moved k bits to the right. */
  function Shifted(code: nat, k: nat): nat {
    if k == 0 then code else Shifted(code / 2, k - 1)
  }

  function Bit(code: nat, k: nat): nat {
    Shifted(code, k) % 2
  }

  lemma {:induction false} ShiftedNext(code: nat, k: nat)
    ensures Shifted(code, k + 1) == Shifted(code, k) / 2
  {
    if k > 0 { ShiftedNext(code / 2, k - 1); }
  }

  lemma {:induction false} FitsInBits(code: nat, n: nat)
    ensures code < Pow2(n) <==> Shifted(code, n) == 0
    ensures Shifted(code, n) <= code
  {
    if n > 0 { FitsInBits(code / 2, n - 1); }
  }

  /** The k-th pair of segments carries the k-th bit from the left. */
  lemma {:induction false} DataAt(pro: Protocol, code: nat, n: nat, k: nat)
    requires k < n
    ensures Data(pro, code, n)[2 * k..2 * k + 2] == Transmitted(pro, PulsesOf(pro, Bit(code, n - 1 - k)))
    decreases n
  {
    hide Transmitted;
    if k < n - 1 {
      DataAt(pro, code / 2, n - 1, k);
      var s := Data(pro, code / 2, n - 1);
      assert Data(pro, code, n)[2 * k..2 * k + 2] == s[2 * k..2 * k + 2];
    } else {
      assert Bit(code, 0) == code % 2;
    }
  }


  // ----- Receiving -----

  type Timings = s: seq<nat> | |s| == MAX_CHANGES witness seq(MAX_CHANGES, _ => 0)

  /** The distance of two durations, computed in signed integers. */
  function Diff(a: nat, b: nat): nat {
    var d := U16(a - b);
    if d < 0x8000 then d else 0x1_0000 - d
  }

  function SyncLength(pro: Protocol): nat {
    if pro.sync.low > pro.sync.high then pro.sync.low else pro.sync.high
  }

  /** The pulse length that the first duration suggests. */
  function Delay(pro: Protocol, timings: Timings): nat {
    if SyncLength(pro) == 0 then 0 else timings[0] / SyncLength(pro)
  }

  function Tolerance(delay: nat, percent: nat): nat {
    U16(delay * percent) / 100
  }

  predicate Near(timing: nat, delay: nat, pulses: nat, tolerance: nat) {
    Diff(timing, U16(delay * pulses)) < tolerance
  }

  predicate Reads(first: nat, second: nat, delay: nat, tolerance: nat, pulses: HighLow) {
    Near(first, delay, pulses.high, tolerance) && Near(second, delay, pulses.low, tolerance)
  }

  /** The bit that a pair of durations stands for, if any. */
  function BitRead(pro: Protocol, first: nat, second: nat, delay: nat, tolerance: nat): (bit: Option<nat>)
    ensures bit.Some? ==> bit.value < 2
  {
    if Reads(first, second, delay, tolerance, pro.zero) then Some(0)
    else if Reads(first, second, delay, tolerance, pro.one) then Some(1)
    else None
  }

  function FirstData(pro: Protocol): nat {
    if pro.inverted then 2 else 1
  }

  /** The code read from index i on, or nothing if some pair of durations is neither a zero nor a one. */
  function DecodeFrom(pro: Protocol, timings: Timings, changes: nat, delay: nat, tolerance: nat,
                      i: nat, code: nat): Option<nat>
    requires 1 <= changes <= MAX_CHANGES
    decreases changes - i
  {
    if i >= changes - 1 then Some(code)
    else
      match BitRead(pro, timings[i], timings[i + 1], delay, tolerance)
      case Some(bit) => DecodeFrom(pro, timings, changes, delay, tolerance, i + 2, U32(2 * code) + bit)
      case None => None
  }

  function Decode(pro: Protocol, timings: Timings, changes: nat, percent: nat): Option<nat>
    requires 1 <= changes <= MAX_CHANGES
  {
    var delay := Delay(pro, timings);
    var code := DecodeFrom(pro, timings, changes, delay, Tolerance(delay, percent), FirstData(pro), 0);
    if changes > 7 then code else None
  }

  // ----- A receiver undoes a sender -----

  /** What a receiver has noted when a repetition has come to its end: it starts with the long pulse. */
  function Noted(pro: Protocol, code: nat, n: nat): (s: seq<Segment>)
    ensures |s| == 2 * n + 2
  {
    var sync := Transmitted(pro, pro.sync);
    if pro.inverted then sync + Data(pro, code, n) else [sync[1]] + Data(pro, code, n) + [sync[0]]
  }

  /** That is a window of two repetitions as they go over the line. */
  lemma NotedIsWindow(pro: Protocol, code: nat, n: nat)
    ensures var twice := Train(pro, code, n) + Train(pro, code, n);
            var start := if pro.inverted then 2 * n else 2 * n + 1;
            Noted(pro, code, n) == twice[start..start + 2 * n + 2]
  {
    var data := Data(pro, code, n);
    var sync := Transmitted(pro, pro.sync);
    var twice := Train(pro, code, n) + Train(pro, code, n);
    assert twice == data + sync + data + sync;
    if pro.inverted {
      assert twice[2 * n..4 * n + 2] == sync + data;
    } else {
      assert twice[2 * n + 1..4 * n + 3] == [sync[1]] + data + [sync[0]];
    }
  }

  /** The durations stand at the start of the receiver's buffer. */
  predicate Holds(timings: Timings, segments: seq<Segment>) {
    |segments| <= MAX_CHANGES && forall k :: 0 <= k < |segments| ==> timings[k] == segments[k].micros
  }

  predicate Small(pro: Protocol, pulses: HighLow) {
    pro.pulse * pulses.high < 0x8000 && pro.pulse * pulses.low < 0x8000
  }

  predicate Apart(a: nat, b: nat) {
    a >= b + 1 || b >= a + 1
  }

  /** What makes a protocol readable at a tolerance of 60 percent: the long pulse of the synchronisation is
      where the receiver looks for it, a zero and a one differ by a pulse, and nothing overflows. */
  predicate Readable(pro: Protocol) {
    && 2 <= pro.pulse <= 1092
    && Small(pro, pro.sync) && Small(pro, pro.zero) && Small(pro, pro.one)
    && pro.sync.low + pro.sync.high > 0 && (pro.inverted <==> pro.sync.low <= pro.sync.high)
    && (Apart(pro.zero.high, pro.one.high) || Apart(pro.zero.low, pro.one.low))
  }

  lemma PredefinedAreReadable(p: nat)
    requires p < |PROTOCOLS|
    ensures Readable(PROTOCOLS[p])
  {
    if p == 0 { assert Readable(PROTOCOLS[0]); }
    else if p == 1 { assert Readable(PROTOCOLS[1]); }
    else if p == 2 { assert Readable(PROTOCOLS[2]); }
    else if p == 3 { assert Readable(PROTOCOLS[3]); }
    else if p == 4 { assert Readable(PROTOCOLS[4]); }
    else if p == 5 { assert Readable(PROTOCOLS[5]); }
    else { assert Readable(PROTOCOLS[6]); }
  }

  lemma ProductDivides(a: nat, b: nat)
    requires b > 0
    ensures a * b / b == a
  {
    var q, r := a * b / b, a * b % b;
    assert b * (a - q) == r;
    assert a - q >= 1 ==> b * (a - q) >= b;
    assert a - q <= -1 ==> b * (a - q) + b <= 0;
  }

  lemma U16Fits(x: nat)
    requires x < 0x1_0000
    ensures U16(x) == x
  {
  }

  lemma DiffSmall(a: nat, b: nat)
    requires a < 0x8000 && b < 0x8000
    ensures Diff(a, b) == if a >= b then a - b else b - a
  {
  }

  lemma PulseGap(pulse: nat, a: nat, b: nat)
    requires a >= b + 1
    ensures pulse * a - pulse * b >= pulse
  {
    var d := a - b - 1;
    assert pulse * (b + 1 + d) == pulse * b + pulse + pulse * d;
  }

  lemma PulseApart(pulse: nat, a: nat, b: nat, tolerance: nat)
    requires pulse * a < 0x8000 && pulse * b < 0x8000 && Apart(a, b) && tolerance <= pulse
    ensures !Near(pulse * a, pulse, b, tolerance)
  {
    hide Diff, U16;
    U16Fits(pulse * b);
    DiffSmall(pulse * a, pulse * b);
    if a >= b + 1 { PulseGap(pulse, a, b); } else { PulseGap(pulse, b, a); }
  }

  lemma PulseNear(pulse: nat, a: nat, tolerance: nat)
    requires pulse * a < 0x8000 && tolerance > 0
    ensures Near(pulse * a, pulse, a, tolerance)
  {
    hide Diff, U16;
    U16Fits(pulse * a);
    DiffSmall(pulse * a, pulse * a);
  }

  lemma SegmentLength(pro: Protocol, pulses: HighLow)
    requires Small(pro, pulses)
    ensures Transmitted(pro, pulses)[0].micros == pro.pulse * pulses.high
    ensures Transmitted(pro, pulses)[1].micros == pro.pulse * pulses.low
  {
    hide U16;
    U16Fits(pro.pulse * pulses.high);
    U16Fits(pro.pulse * pulses.low);
  }

  /** The receiver recovers the pulse length exactly. */
  lemma DelayIsPulse(pro: Protocol, timings: Timings, code: nat, n: nat)
    requires Readable(pro) && n <= 32 && Holds(timings, Noted(pro, code, n))
    ensures Delay(pro, timings) == pro.pulse
    ensures 0 < Tolerance(pro.pulse, TOLERANCE) <= pro.pulse
  {
    hide Data, Transmitted, U16;
    SegmentLength(pro, pro.sync);
    U16Fits(pro.pulse * TOLERANCE);
    assert timings[0] == Noted(pro, code, n)[0].micros;
    if pro.inverted { ProductDivides(pro.pulse, pro.sync.high); } else { ProductDivides(pro.pulse, pro.sync.low); }
  }

  /** The durations of one bit read as that bit. */
  lemma PairReads(pro: Protocol, bit: nat, tolerance: nat)
    requires Readable(pro) && bit < 2 && 0 < tolerance <= pro.pulse
    ensures var sent := Transmitted(pro, PulsesOf(pro, bit));
            BitRead(pro, sent[0].micros, sent[1].micros, pro.pulse, tolerance) == Some(bit)
  {
    hide Near, Transmitted;
    var pulses := PulsesOf(pro, bit);
    SegmentLength(pro, pulses);
    PulseNear(pro.pulse, pulses.high, tolerance);
    PulseNear(pro.pulse, pulses.low, tolerance);
    if bit == 1 {
      if Apart(pro.zero.high, pro.one.high) {
        PulseApart(pro.pulse, pro.one.high, pro.zero.high, tolerance);
      } else {
        PulseApart(pro.pulse, pro.one.low, pro.zero.low, tolerance);
      }
    }
  }

  /** The durations of bit k stand where the receiver looks for them. */
  lemma PairIsThere(pro: Protocol, timings: Timings, code: nat, n: nat, k: nat)
    requires k < n <= 32 && Holds(timings, Noted(pro, code, n))
    ensures var i := FirstData(pro) + 2 * k;
            var sent := Transmitted(pro, PulsesOf(pro, Bit(code, n - 1 - k)));
            i + 1 <= 2 * n + 1 && timings[i] == sent[0].micros && timings[i + 1] == sent[1].micros
  {
    hide Transmitted, Bit;
    DataAt(pro, code, n, k);
    var i := FirstData(pro) + 2 * k;
    var sent := Transmitted(pro, PulsesOf(pro, Bit(code, n - 1 - k)));
    var data := Data(pro, code, n);
    assert data[2 * k] == data[2 * k..2 * k + 2][0] == sent[0];
    assert data[2 * k + 1] == data[2 * k..2 * k + 2][1] == sent[1];
    assert Noted(pro, code, n)[i] == data[2 * k];
    assert Noted(pro, code, n)[i + 1] == data[2 * k + 1];
  }

  /** One more bit, read right, and the upper bits grow by one. */
  lemma OneMoreBit(code: nat, n: nat, k: nat)
    requires k < n && code < 0x1_0000_0000
    ensures U32(2 * Shifted(code, n - k)) + Bit(code, n - 1 - k) == Shifted(code, n - (k + 1))
  {
    ShiftedNext(code, n - 1 - k);
    FitsInBits(code, n - 1 - k);
    U32Fits(2 * Shifted(code, n - k));
  }

  /** After k bits the receiver has the k upper bits; after all, the code. */
  lemma {:induction false} DecodesFrom(pro: Protocol, timings: Timings, code: nat, n: nat, k: nat)
    requires Readable(pro) && k <= n <= 32 && code < 0x1_0000_0000 && Holds(timings, Noted(pro, code, n))
    ensures DecodeFrom(pro, timings, 2 * n + 2, pro.pulse, Tolerance(pro.pulse, TOLERANCE), FirstData(pro) + 2 * k,
                       Shifted(code, n - k)) == Some(code)
    decreases n - k
  {
    hide BitRead, Noted, Readable, Tolerance, PulsesOf, U32;
    if k < n {
      DelayIsPulse(pro, timings, code, n);
      PairIsThere(pro, timings, code, n, k);
      PairReads(pro, Bit(code, n - 1 - k), Tolerance(pro.pulse, TOLERANCE));
      OneMoreBit(code, n, k);
      DecodesFrom(pro, timings, code, n, k + 1);
    }
  }

  lemma U32Fits(x: nat)
    requires x < 0x1_0000_0000
    ensures U32(x) == x
  {
  }

  /** For every predefined protocol, and every code of 3 to 32 bits, the receiver that has noted the edges of
      a repeated transmission recovers the code; the number of bits is half the number of edges, less one. */
  lemma ReceiverUndoesSender(p: nat, timings: Timings, code: nat, n: nat)
    requires p < |PROTOCOLS| && 3 <= n <= 32 && code < Pow2(n) && Holds(timings, Noted(PROTOCOLS[p], code, n))
    ensures Decode(PROTOCOLS[p], timings, 2 * n + 2, TOLERANCE) == Some(code) && (2 * n + 2 - 1) / 2 == n
  {
    var pro := PROTOCOLS[p];
    PredefinedAreReadable(p);
    hide Readable, DecodeFrom, Noted;
    FitsInBits(code, n);
    Pow2Bound(n);
    DelayIsPulse(pro, timings, code, n);
    DecodesFrom(pro, timings, code, n, 0);
  }

  lemma {:induction false} Pow2Bound(n: nat)
    requires n <= 32
    ensures Pow2(n) <= 0x1_0000_0000
    decreases 32 - n
  {
    if n == 32 {
      assert Pow2(8) == 0x100;
      assert Pow2(16) == 0x100 * Pow2(8);
      assert Pow2(24) == 0x100 * Pow2(16);
      assert Pow2(32) == 0x100 * Pow2(24);
    } else {
      Pow2Bound(n + 1);
    }
  }

  // ----- Tri-state codes -----

  /** The two bits of a letter; unknown letters count as zeros. */
  function LetterBits(c: char): nat {
    if c == 'F' then 1 else if c == '1' then 3 else 0
  }

  function TriCode(word: string): nat {
    if word == [] then 0 else U32(4 * TriCode(word[..|word| - 1])) + LetterBits(word[|word| - 1])
  }

  /** What goes over the line for one letter. */
  function LetterPulses(pro: Protocol, c: char): seq<Segment> {
    Transmitted(pro, if c == '1' then pro.one else pro.zero) +
    Transmitted(pro, if c == '1' || c == 'F' then pro.one else pro.zero)
  }

  function WordPulses(pro: Protocol, word: string): seq<Segment> {
    if word == [] then [] else WordPulses(pro, word[..|word| - 1]) + LetterPulses(pro, word[|word| - 1])
  }

  lemma {:induction false} TriCodeBound(word: string)
    requires |word| <= 16
    ensures TriCode(word) < Pow2(2 * |word|)
    decreases |word|
  {
    if word != [] {
      var front := word[..|word| - 1];
      TriCodeBound(front);
      assert Pow2(2 * |word|) == 4 * Pow2(2 * |front|);
      Pow2Bound(2 * |word|);
      U32Fits(4 * TriCode(front));
    }
  }

  /** A word of up to 16 letters goes over the line letter by letter: 0 as two zeros, F as a zero and a one,
      1 as two ones. */
  lemma {:induction false} TriStateIsSpelled(pro: Protocol, word: string)
    requires |word| <= 16
    ensures Data(pro, TriCode(word), 2 * |word|) == WordPulses(pro, word)
    decreases |word|
  {
    if word != [] {
      hide Transmitted;
      var front := word[..|word| - 1];
      var bits := LetterBits(word[|word| - 1]);
      TriStateIsSpelled(pro, front);
      TriCodeBound(front);
      assert Pow2(2 * |word|) == 4 * Pow2(2 * |front|);
      Pow2Bound(2 * |word|);
      U32Fits(4 * TriCode(front));
      TwoMoreBits(pro, TriCode(front), bits, 2 * |front|);
    }
  }

  lemma TwoMoreBits(pro: Protocol, code: nat, bits: nat, n: nat)
    requires bits < 4
    ensures Data(pro, 4 * code + bits, n + 2) ==
              Data(pro, code, n) + Transmitted(pro, PulsesOf(pro, bits / 2)) + Transmitted(pro, PulsesOf(pro, bits % 2))
  {
    hide Transmitted;
    var half := 2 * code + bits / 2;
    assert (4 * code + bits) / 2 == half && (4 * code + bits) % 2 == bits % 2;
    assert half / 2 == code && half % 2 == bits / 2;
    assert Data(pro, 4 * code + bits, n + 2) == Data(pro, half, n + 1) + Transmitted(pro, PulsesOf(pro, bits % 2));
    assert Data(pro, half, n + 1) == Data(pro, code, n) + Transmitted(pro, PulsesOf(pro, bits / 2));
  }

  // ----- The interrupt handler -----

  /** What a successful reception leaves behind. */
  datatype Received = Received(value: nat, bits: nat, delay: nat, protocol: nat)

  datatype Handler = Handler(changes: nat, lastTime: nat, repeats: nat, timings: Timings, received: Received)

  /** The first protocol from number i on that makes sense of the durations. */
  function TryFrom(h: Handler, percent: nat, i: nat): Received
    requires 1 <= h.changes <= MAX_CHANGES && i <= |PROTOCOLS|
    decreases |PROTOCOLS| - i
  {
    if i == |PROTOCOLS| then h.received
    else
      match Decode(PROTOCOLS[i], h.timings, h.changes, percent)
      case Some(code) => Received(code, (h.changes - 1) / 2, Delay(PROTOCOLS[i], h.timings), i + 1)
      case None => TryFrom(h, percent, i + 1)
  }

  /** Where the next duration goes: never outside the buffer, and never is an empty buffer decoded. */
  predicate Sound(h: Handler) {
    h.changes <= MAX_CHANGES && h.repeats <= 1 && (h.changes == 0 ==> h.repeats == 0)
  }

  /** A long gap, perhaps between two repetitions: it must be about as long as the one that the noted
      durations start with, and every second time they are decoded. */
  function AfterGap(h: Handler, duration: nat, percent: nat): Handler
    requires Sound(h)
  {
    if Diff(duration, h.timings[0]) >= 200 then h.(changes := 0)
    else if h.repeats + 1 == 2 then h.(changes := 0, repeats := 0, received := TryFrom(h, percent, 0))
    else h.(changes := 0, repeats := h.repeats + 1)
  }

  function Duration(h: Handler, time: nat): nat {
    U16(U32(time - h.lastTime))
  }

  function Interrupted(h: Handler, time: nat, percent: nat): Handler
    requires Sound(h)
  {
    var duration := Duration(h, time);
    var a := if duration > SEPARATION_LIMIT then AfterGap(h, duration, percent) else h;
    var b := if a.changes >= MAX_CHANGES then a.(changes := 0, repeats := 0) else a;
    b.(timings := b.timings[b.changes := duration], changes := b.changes + 1, lastTime := time)
  }

  /** Over every sequence of interrupts, from the first on, the buffer index stays in range and the decoder
      is called with between 1 and 67 durations; both are preconditions that hold where they are needed. */
  lemma InterruptedIsSound(h: Handler, time: nat, percent: nat)
    requires Sound(h)
    ensures Sound(Interrupted(h, time, percent)) && Interrupted(h, time, percent).changes >= 1
  {
    hide Diff, TryFrom;
  }

  function InterruptedAt(h: Handler, times: seq<nat>, percent: nat): (r: Handler)
    requires Sound(h)
    ensures Sound(r)
    decreases |times|
  {
    if times == [] then h
    else
      InterruptedIsSound(h, times[0], percent);
      InterruptedAt(Interrupted(h, times[0], percent), times[1..], percent)
  }

  /** The moments of the edges that end the given segments, one after the other. */
  predicate Edges(from: nat, segments: seq<Segment>, times: seq<nat>)
    decreases |segments|
  {
    && |times| == |segments|
    && (segments != [] ==>
          segments[0].micros < 0x1_0000 && times[0] == U32(from + segments[0].micros)
          && Edges(times[0], segments[1..], times[1..]))
  }

  predicate AllShort(segments: seq<Segment>) {
    forall k :: 0 <= k < |segments| ==> segments[k].micros <= SEPARATION_LIMIT
  }

  lemma DurationOfSegment(from: nat, micros: nat)
    requires micros < 0x1_0000
    ensures U16(U32(U32(from + micros) - from)) == micros
  {
    var m := 0x1_0000_0000;
    var t := U32(from + micros);
    assert U32(t - from) == U32(micros) by { WrapBack(from, micros); }
    U32Fits(micros);
    U16Fits(micros);
  }

  lemma WrapBack(from: nat, micros: nat)
    ensures U32(U32(from + micros) - from) == U32(micros)
  {
    var q := (from + micros) / 0x1_0000_0000;
    assert U32(from + micros) - from == micros - q * 0x1_0000_0000;
    ModLess(micros, q);
  }

  lemma ModLess(x: int, q: int)
    ensures U32(x - q * 0x1_0000_0000) == U32(x)
  {
  }

  /** Short segments are noted one after the other. */
  lemma {:induction false} ShortSegmentsAreNoted(h: Handler, segments: seq<Segment>, times: seq<nat>, percent: nat)
    requires Sound(h) && 1 <= h.changes && h.changes + |segments| <= MAX_CHANGES
    requires AllShort(segments) && Edges(h.lastTime, segments, times)
    ensures var r := InterruptedAt(h, times, percent);
            && r.changes == h.changes + |segments| && r.repeats == h.repeats && r.received == h.received
            && (forall k :: 0 <= k < h.changes ==> r.timings[k] == h.timings[k])
            && (forall k :: 0 <= k < |segments| ==> r.timings[h.changes + k] == segments[k].micros)
    decreases |segments|
  {
    if segments != [] {
      hide U16, U32, TryFrom, Diff, AfterGap;
      InterruptedIsSound(h, times[0], percent);
      DurationOfSegment(h.lastTime, segments[0].micros);
      var next := Interrupted(h, times[0], percent);
      assert next.timings[h.changes] == segments[0].micros;
      ShortSegmentsAreNoted(next, segments[1..], times[1..], percent);
      var r := InterruptedAt(next, times[1..], percent);
      forall k | 0 <= k < |segments|
        ensures r.timings[h.changes + k] == segments[k].micros
      {
        if k > 0 { assert segments[k] == segments[1..][k - 1]; }
      }
    }
  }

  // ----- One protocol's train in another protocol's ears -----

  /** How long the pulse is that the noted durations of protocol p start with. */
  function Gap(pro: Protocol): nat {
    U16(pro.pulse * SyncLength(pro))
  }

  /** What protocol q makes of one bit of protocol p. */
  function Misread(q: Protocol, p: Protocol, bit: nat): Option<nat>
    requires bit < 2
  {
    var delay := if SyncLength(q) == 0 then 0 else Gap(p) / SyncLength(q);
    var sent := Transmitted(p, PulsesOf(p, bit));
    BitRead(q, sent[0].micros, sent[1].micros, delay, Tolerance(delay, TOLERANCE))
  }

  /** If q reads a bit of p at all, it reads it right. */
  predicate Agrees(q: Protocol, p: Protocol) {
    && !q.inverted && !p.inverted
    && (Misread(q, p, 0) == Some(0) || Misread(q, p, 0) == None)
    && (Misread(q, p, 1) == Some(1) || Misread(q, p, 1) == None)
  }

  predicate Understands(q: Protocol, p: Protocol) {
    Misread(q, p, 0) == Some(0) && Misread(q, p, 1) == Some(1)
  }

  lemma NotedStartsWithGap(pro: Protocol, code: nat, n: nat)
    requires Readable(pro)
    ensures Noted(pro, code, n)[0].micros == Gap(pro)
  {
    hide U16, Data;
  }

  lemma {:induction false} AgreesOnCode(q: Protocol, p: Protocol, timings: Timings, code: nat, n: nat, k: nat)
    requires Readable(p) && Agrees(q, p) && k <= n <= 32 && code < 0x1_0000_0000 && Holds(timings, Noted(p, code, n))
    ensures var delay := Delay(q, timings);
            var read := DecodeFrom(q, timings, 2 * n + 2, delay, Tolerance(delay, TOLERANCE), 1 + 2 * k,
                                   Shifted(code, n - k));
            (read == None || read == Some(code)) && (Understands(q, p) ==> read == Some(code))
    decreases n - k
  {
    hide BitRead, Noted, Readable, Tolerance, Transmitted, U32, Bit;
    if k < n {
      NotedStartsWithGap(p, code, n);
      PairIsThere(p, timings, code, n, k);
      BitIsBit(code, n - 1 - k);
      OneMoreBit(code, n, k);
      AgreesOnCode(q, p, timings, code, n, k + 1);
    }
  }

  lemma BitIsBit(code: nat, k: nat)
    ensures Bit(code, k) == 0 || Bit(code, k) == 1
  {
  }

  /** Reading with all numbers at hand. */
  predicate Close(a: int, b: int, tolerance: int) {
    a - b < tolerance && b - a < tolerance
  }

  function ReadAt(q: Protocol, first: nat, second: nat, delay: nat, tolerance: nat): Option<nat> {
    if Close(first, delay * q.zero.high, tolerance) && Close(second, delay * q.zero.low, tolerance) then Some(0)
    else if Close(first, delay * q.one.high, tolerance) && Close(second, delay * q.one.low, tolerance) then Some(1)
    else None
  }

  lemma NearIsClose(timing: nat, delay: nat, pulses: nat, tolerance: nat)
    requires timing < 0x8000 && delay * pulses < 0x8000
    ensures Near(timing, delay, pulses, tolerance) <==> Close(timing, delay * pulses, tolerance)
  {
    hide U16, Diff;
    U16Fits(delay * pulses);
    DiffSmall(timing, delay * pulses);
  }

  /** Nothing overflows when the bits of p are read at this delay. */
  predicate InRange(q: Protocol, p: Protocol, delay: nat) {
    && Small(p, p.zero) && Small(p, p.one)
    && delay * q.zero.high < 0x8000 && delay * q.zero.low < 0x8000
    && delay * q.one.high < 0x8000 && delay * q.one.low < 0x8000
  }

  lemma ReadIsReadAt(q: Protocol, first: nat, second: nat, delay: nat, tolerance: nat)
    requires first < 0x8000 && second < 0x8000
    requires delay * q.zero.high < 0x8000 && delay * q.zero.low < 0x8000
    requires delay * q.one.high < 0x8000 && delay * q.one.low < 0x8000
    ensures BitRead(q, first, second, delay, tolerance) == ReadAt(q, first, second, delay, tolerance)
  {
    hide Near, Close;
    NearIsClose(first, delay, q.zero.high, tolerance);
    NearIsClose(second, delay, q.zero.low, tolerance);
    NearIsClose(first, delay, q.one.high, tolerance);
    NearIsClose(second, delay, q.one.low, tolerance);
  }

  lemma MisreadAt(q: Protocol, p: Protocol, delay: nat, tolerance: nat, bit: nat)
    requires bit < 2 && SyncLength(q) > 0 && Gap(p) / SyncLength(q) == delay && Tolerance(delay, TOLERANCE) == tolerance
    requires InRange(q, p, delay)
    ensures var pulses := PulsesOf(p, bit);
            Misread(q, p, bit) == ReadAt(q, p.pulse * pulses.high, p.pulse * pulses.low, delay, tolerance)
  {
    hide U16, Transmitted, Gap, Tolerance, BitRead, ReadAt;
    var pulses := PulsesOf(p, bit);
    SegmentLength(p, pulses);
    ReadIsReadAt(q, p.pulse * pulses.high, p.pulse * pulses.low, delay, tolerance);
  }

  lemma AgreesByNumbers(q: Protocol, p: Protocol, gap: nat, delay: nat, tolerance: nat)
    requires SyncLength(q) > 0 && Gap(p) == gap && gap / SyncLength(q) == delay
    requires Tolerance(delay, TOLERANCE) == tolerance && InRange(q, p, delay) && !q.inverted && !p.inverted
    requires var zero := ReadAt(q, p.pulse * p.zero.high, p.pulse * p.zero.low, delay, tolerance);
             zero == Some(0) || zero == None
    requires var one := ReadAt(q, p.pulse * p.one.high, p.pulse * p.one.low, delay, tolerance);
             one == Some(1) || one == None
    ensures Agrees(q, p)
  {
    MisreadAt(q, p, delay, tolerance, 0);
    MisreadAt(q, p, delay, tolerance, 1);
    hide Misread, Gap, Tolerance, U16;
  }

  lemma EarlierAgreeWith3(q: nat)
    requires q < 2
    ensures Agrees(PROTOCOLS[q], PROTOCOLS[2])
  {
    hide Agrees, Misread;
    if q == 0 {
      AgreesByNumbers(PROTOCOLS[0], PROTOCOLS[2], 7100, 229, 137);
    } else {
      AgreesByNumbers(PROTOCOLS[1], PROTOCOLS[2], 7100, 710, 426);
    }
  }

  lemma EarlierAgreeWith5(q: nat)
    requires q < 4
    ensures Agrees(PROTOCOLS[q], PROTOCOLS[4])
  {
    hide Agrees, Misread;
    if q == 0 {
      AgreesByNumbers(PROTOCOLS[0], PROTOCOLS[4], 7000, 225, 135);
    } else if q == 1 {
      AgreesByNumbers(PROTOCOLS[1], PROTOCOLS[4], 7000, 700, 420);
    } else if q == 2 {
      AgreesByNumbers(PROTOCOLS[2], PROTOCOLS[4], 7000, 98, 58);
    } else {
      AgreesByNumbers(PROTOCOLS[3], PROTOCOLS[4], 7000, 1166, 44);
    }
  }

  /** The protocols that are tried before read the bits of a later one right, if at all. */
  lemma EarlierProtocolsAgree(q: nat, p: nat)
    requires q < p <= 4 && p != 3
    ensures Agrees(PROTOCOLS[q], PROTOCOLS[p])
  {
    hide Agrees, Misread;
    if p == 1 {
      AgreesByNumbers(PROTOCOLS[0], PROTOCOLS[1], 6500, 209, 125);
    } else if p == 2 {
      EarlierAgreeWith3(q);
    } else {
      EarlierAgreeWith5(q);
    }
  }

  /** Protocol 1 understands protocol 7, whose pulses have nearly the same lengths. */
  lemma Protocol1UnderstandsProtocol7()
    ensures Agrees(PROTOCOLS[0], PROTOCOLS[6]) && Understands(PROTOCOLS[0], PROTOCOLS[6])
  {
    assert Gap(PROTOCOLS[6]) == 9300 && Tolerance(300, TOLERANCE) == 180;
    MisreadAt(PROTOCOLS[0], PROTOCOLS[6], 300, 180, 0);
    MisreadAt(PROTOCOLS[0], PROTOCOLS[6], 300, 180, 1);
    hide Misread, Gap, Tolerance, U16;
  }

  // ----- The inverted protocol 6 in the ears of the others -----

  /** The last m bits of the code are all set. */
  ghost predicate Ones(code: nat, m: nat) {
    forall k: nat :: k < m ==> Bit(code, k) == 1
  }

  lemma {:induction false} OnesIff(code: nat, n: nat)
    requires code < Pow2(n)
    ensures Ones(code, n) <==> code == Pow2(n) - 1
  {
    if n > 0 {
      OnesIff(code / 2, n - 1);
      assert Bit(code, 0) == code % 2;
      assert forall k: nat :: Bit(code / 2, k) == Bit(code, k + 1);
      if code % 2 == 1 && Ones(code / 2, n - 1) {
        forall k: nat | k < n
          ensures Bit(code, k) == 1
        {
          if k > 0 { assert Bit(code / 2, k - 1) == Bit(code, k); }
        }
      }
    }
  }

  /** What a receiver has noted of protocol 6: from the second duration on, halves of neighbouring bits. */
  lemma NotedOfProtocol6(timings: Timings, code: nat, n: nat, k: nat)
    requires k < n <= 32 && Holds(timings, Noted(PROTOCOLS[5], code, n))
    ensures timings[0] == 10350 && timings[1] == 450
    ensures timings[2 + 2 * k] == (if Bit(code, n - 1 - k) == 1 then 900 else 450)
    ensures timings[3 + 2 * k] == (if Bit(code, n - 1 - k) == 1 then 450 else 900)
  {
    var p := PROTOCOLS[5];
    assert Noted(p, code, n)[0].micros == 10350 && Noted(p, code, n)[1].micros == 450;
    PairIsThere(p, timings, code, n, k);
    BitIsBit(code, n - 1 - k);
  }

  /** Protocols 2 to 5 make nothing of it. */
  lemma OthersMissProtocol6(q: nat, timings: Timings, code: nat, n: nat)
    requires 1 <= q <= 4 && 3 <= n <= 32 && Holds(timings, Noted(PROTOCOLS[5], code, n))
    ensures Decode(PROTOCOLS[q], timings, 2 * n + 2, TOLERANCE) == None
  {
    NotedOfProtocol6(timings, code, n, 0);
    hide Noted, Bit, BitRead, U16;
    var second := timings[2];
    if q == 1 {
      assert Tolerance(1035, TOLERANCE) == 621 by { U16Fits(62100); }
      ReadIsReadAt(PROTOCOLS[1], 450, second, 1035, 621);
    } else if q == 2 {
      assert Tolerance(145, TOLERANCE) == 87 by { U16Fits(8700); }
      ReadIsReadAt(PROTOCOLS[2], 450, second, 145, 87);
    } else if q == 3 {
      assert Tolerance(1725, TOLERANCE) == 379 by { assert U16(1725 * 60) == 37964; }
      ReadIsReadAt(PROTOCOLS[3], 450, second, 1725, 379);
    } else {
      assert Tolerance(739, TOLERANCE) == 443 by { U16Fits(44340); }
      ReadIsReadAt(PROTOCOLS[4], 450, second, 739, 443);
    }
  }

  /** Protocol 1 takes the halves of two neighbouring ones for a zero, and cannot read anything else. */
  lemma {:induction false} OnesSlipThrough(timings: Timings, code: nat, n: nat, k: nat)
    requires k <= n <= 32 && Holds(timings, Noted(PROTOCOLS[5], code, n))
    requires n > 0 && (k > 0 ==> Bit(code, n - k) == 1)
    ensures DecodeFrom(PROTOCOLS[0], timings, 2 * n + 2, 333, 199, 1 + 2 * k, 0) ==
              if Ones(code, n - k) then Some(0) else None
    decreases n - k
  {
    hide Noted, Bit, BitRead;
    if k < n {
      NotedOfProtocol6(timings, code, n, k);
      if k > 0 { NotedOfProtocol6(timings, code, n, k - 1); }
      BitIsBit(code, n - 1 - k);
      assert timings[1 + 2 * k] == 450;
      ReadIsReadAt(PROTOCOLS[0], 450, timings[2 + 2 * k], 333, 199);
      assert Ones(code, n - k) <==> Bit(code, n - 1 - k) == 1 && Ones(code, n - 1 - k);
      if Bit(code, n - 1 - k) == 1 { OnesSlipThrough(timings, code, n, k + 1); }
    }
  }

  /** Protocol 1 takes the code of all ones for zero, and misses every other. */
  lemma Protocol1OnProtocol6(timings: Timings, code: nat, n: nat)
    requires 3 <= n <= 32 && code < Pow2(n) && Holds(timings, Noted(PROTOCOLS[5], code, n))
    ensures Decode(PROTOCOLS[0], timings, 2 * n + 2, TOLERANCE) == if code == Pow2(n) - 1 then Some(0) else None
  {
    hide Noted, DecodeFrom, Ones;
    NotedOfProtocol6(timings, code, n, 0);
    OnesSlipThrough(timings, code, n, 0);
    OnesIff(code, n);
    assert Tolerance(333, TOLERANCE) == 199;
  }

  // ----- From the sender's train to the received value -----

  /** What the receiver makes of a code of protocol p (counted from 0): itself, except that the code of all
      ones in protocol 6 reads as zero. */
  function Understood(p: nat, code: nat, n: nat): nat {
    if p == 5 && code == Pow2(n) - 1 then 0 else code
  }

  predicate Complete(h: Handler, p: nat, code: nat, n: nat) {
    p < |PROTOCOLS| && n <= 32 && h.changes == 2 * n + 2 && Holds(h.timings, Noted(PROTOCOLS[p], code, n))
  }

  /** A protocol from number i + 1 to number p + 1 is reported, and if it is the sender's, with its pulse length. */
  predicate Named(r: Received, i: nat, p: nat)
    requires p < |PROTOCOLS|
  {
    i < r.protocol <= p + 1 && (r.protocol == p + 1 ==> r.delay == PROTOCOLS[p].pulse)
  }

  lemma {:induction false} AgreeingTry(h: Handler, p: nat, code: nat, n: nat, i: nat)
    requires Complete(h, p, code, n) && 3 <= n && code < Pow2(n) && i <= p <= 4 && p != 3
    ensures TryFrom(h, TOLERANCE, i).value == code && TryFrom(h, TOLERANCE, i).bits == n
    ensures Named(TryFrom(h, TOLERANCE, i), i, p)
    decreases p - i
  {
    PredefinedAreReadable(p);
    hide Noted, DecodeFrom, Readable, Agrees;
    if i == p {
      ReceiverUndoesSender(p, h.timings, code, n);
      DelayIsPulse(PROTOCOLS[p], h.timings, code, n);
    } else {
      EarlierProtocolsAgree(i, p);
      OneAgreeingTry(h, i, p, code, n);
      AgreeingTry(h, p, code, n, i + 1);
    }
  }

  lemma OneAgreeingTry(h: Handler, q: nat, p: nat, code: nat, n: nat)
    requires Complete(h, p, code, n) && 3 <= n && code < Pow2(n) && q < |PROTOCOLS|
    requires Agrees(PROTOCOLS[q], PROTOCOLS[p])
    ensures var read := Decode(PROTOCOLS[q], h.timings, h.changes, TOLERANCE);
            (read == None || read == Some(code)) && (Understands(PROTOCOLS[q], PROTOCOLS[p]) ==> read == Some(code))
  {
    PredefinedAreReadable(p);
    assert !PROTOCOLS[q].inverted;
    hide Noted, DecodeFrom, Readable, Agrees, Understands;
    Pow2Bound(n);
    FitsInBits(code, n);
    AgreesOnCode(PROTOCOLS[q], PROTOCOLS[p], h.timings, code, n, 0);
  }

  lemma {:induction false} MissingTries(h: Handler, code: nat, n: nat, i: nat)
    requires Complete(h, 5, code, n) && 3 <= n && code < Pow2(n) && 1 <= i <= 5
    ensures TryFrom(h, TOLERANCE, i).value == code && TryFrom(h, TOLERANCE, i).bits == n
    ensures Named(TryFrom(h, TOLERANCE, i), i, 5)
    decreases 5 - i
  {
    hide Noted, Decode;
    if i == 5 {
      ReceiverUndoesSender(5, h.timings, code, n);
      PredefinedAreReadable(5);
      DelayIsPulse(PROTOCOLS[5], h.timings, code, n);
    } else {
      OthersMissProtocol6(i, h.timings, code, n);
      MissingTries(h, code, n, i + 1);
    }
  }

  /** The protocols are tried in turn; whichever is the first to make sense of the durations, the value is right, and
      if it is the sender's, so is the pulse length. */
  lemma TryIsRight(h: Handler, p: nat, code: nat, n: nat)
    requires Complete(h, p, code, n) && 3 <= n && code < Pow2(n) && p != 3
    ensures TryFrom(h, TOLERANCE, 0).value == Understood(p, code, n) && TryFrom(h, TOLERANCE, 0).bits == n
    ensures Named(TryFrom(h, TOLERANCE, 0), 0, p)
  {
    hide Noted, Decode;
    if p <= 4 {
      AgreeingTry(h, p, code, n, 0);
    } else if p == 5 {
      Protocol1OnProtocol6(h.timings, code, n);
      MissingTries(h, code, n, 1);
    } else {
      Protocol1UnderstandsProtocol7();
      OneAgreeingTry(h, 0, 6, code, n);
    }
  }

  /** The long pulse is above the separation limit in all protocols but number 4, and the others are below. */
  lemma OnlyTheGapIsLong(p: nat, code: nat, n: nat)
    requires p < |PROTOCOLS| && p != 3
    ensures var noted := Noted(PROTOCOLS[p], code, n);
            SEPARATION_LIMIT < noted[0].micros < 0x8000 && AllShort(noted[1..])
  {
    DataIsShort(p, code, n);
    var pro := PROTOCOLS[p];
    var noted := Noted(pro, code, n);
    var sync := Transmitted(pro, pro.sync);
    forall k | 0 <= k < |noted| - 1
      ensures noted[1..][k].micros <= SEPARATION_LIMIT
    {
      if pro.inverted {
        if k > 0 { assert noted[k + 1] == Data(pro, code, n)[k - 1]; }
      } else if k < 2 * n {
        assert noted[k + 1] == Data(pro, code, n)[k];
      }
    }
  }

  lemma {:induction false} DataIsShort(p: nat, code: nat, n: nat)
    requires p < |PROTOCOLS|
    ensures AllShort(Data(PROTOCOLS[p], code, n))
    decreases n
  {
    if n > 0 {
      DataIsShort(p, code / 2, n - 1);
      PulsesAreShort(p);
      hide Transmitted;
      var pro := PROTOCOLS[p];
      var last := Transmitted(pro, PulsesOf(pro, code % 2));
      forall k | 0 <= k < 2 * n
        ensures Data(pro, code, n)[k].micros <= SEPARATION_LIMIT
      {
        if k < 2 * n - 2 {
          assert Data(pro, code, n)[k] == Data(pro, code / 2, n - 1)[k];
        } else {
          assert Data(pro, code, n)[k] == last[k - (2 * n - 2)];
        }
      }
    }
  }

  lemma PulsesAreShort(p: nat)
    requires p < |PROTOCOLS|
    ensures AllShort(Transmitted(PROTOCOLS[p], PROTOCOLS[p].zero))
    ensures AllShort(Transmitted(PROTOCOLS[p], PROTOCOLS[p].one))
  {
  }

  lemma DiffOfEquals(x: nat)
    ensures Diff(x, x) == 0
  {
  }

  /** A gap and the segments up to the next fill the buffer with one repetition. */
  lemma RepetitionIsNoted(h: Handler, p: nat, code: nat, n: nat, times: seq<nat>)
    requires Sound(h) && p < |PROTOCOLS| && p != 3 && n <= 32
    requires Edges(h.lastTime, Noted(PROTOCOLS[p], code, n), times)
    ensures var r := InterruptedAt(h, times, TOLERANCE);
            var a := AfterGap(h, Noted(PROTOCOLS[p], code, n)[0].micros, TOLERANCE);
            Complete(r, p, code, n) && r.repeats == a.repeats && r.received == a.received
  {
    var noted := Noted(PROTOCOLS[p], code, n);
    OnlyTheGapIsLong(p, code, n);
    hide Noted, AllShort, Diff, TryFrom, U16, U32;
    DurationOfSegment(h.lastTime, noted[0].micros);
    InterruptedIsSound(h, times[0], TOLERANCE);
    var next := Interrupted(h, times[0], TOLERANCE);
    assert next.changes == 1 && next.timings[0] == noted[0].micros;
    ShortSegmentsAreNoted(next, noted[1..], times[1..], TOLERANCE);
    var r := InterruptedAt(h, times, TOLERANCE);
    forall k | 0 <= k < |noted|
      ensures r.timings[k] == noted[k].micros
    {
      if k > 0 { assert noted[k] == noted[1..][k - 1]; }
    }
  }

  /** At the gap after a complete repetition, the count of repetitions goes up, and at every second one the
      value is received. */
  lemma GapAfterRepetition(h: Handler, p: nat, code: nat, n: nat)
    requires Sound(h) && Complete(h, p, code, n) && 3 <= n && code < Pow2(n) && p != 3
    ensures var a := AfterGap(h, Noted(PROTOCOLS[p], code, n)[0].micros, TOLERANCE);
            && a.repeats == 1 - h.repeats
            && (h.repeats == 0 ==> a.received == h.received)
            && (h.repeats == 1 ==>
                  a.received.value == Understood(p, code, n) && a.received.bits == n && Named(a.received, 0, p))
  {
    hide Noted, TryFrom, Diff, Named;
    DiffOfEquals(h.timings[0]);
    TryIsRight(h, p, code, n);
  }

  function LastTime(from: nat, times: seq<nat>): nat
    decreases |times|
  {
    if times == [] then from else LastTime(times[0], times[1..])
  }

  lemma {:induction false} EdgesInTwoParts(from: nat, s1: seq<Segment>, s2: seq<Segment>, times: seq<nat>)
    requires Edges(from, s1 + s2, times)
    ensures |times| == |s1| + |s2| && Edges(from, s1, times[..|s1|])
    ensures Edges(LastTime(from, times[..|s1|]), s2, times[|s1|..])
    decreases |s1|
  {
    if s1 == [] {
      assert s1 + s2 == s2;
      assert times[..0] == [] && times[0..] == times;
    } else {
      hide U32;
      assert (s1 + s2)[1..] == s1[1..] + s2 && (s1 + s2)[0] == s1[0];
      EdgesInTwoParts(times[0], s1[1..], s2, times[1..]);
      assert times[..|s1|][1..] == times[1..][..|s1| - 1];
      assert times[1..][|s1| - 1..] == times[|s1|..];
    }
  }

  lemma {:induction false} InterruptedInTwoParts(h: Handler, t1: seq<nat>, t2: seq<nat>, percent: nat)
    requires Sound(h)
    ensures InterruptedAt(h, t1, percent).lastTime == LastTime(h.lastTime, t1)
    ensures InterruptedAt(h, t1 + t2, percent) == InterruptedAt(InterruptedAt(h, t1, percent), t2, percent)
    decreases |t1|
  {
    if t1 == [] {
      assert t1 + t2 == t2;
    } else {
      assert (t1 + t2)[1..] == t1[1..] + t2 && (t1 + t2)[0] == t1[0];
      InterruptedIsSound(h, t1[0], percent);
      var next := Interrupted(h, t1[0], percent);
      assert next.lastTime == t1[0];
      hide Interrupted, Sound;
      InterruptedInTwoParts(next, t1[1..], t2, percent);
    }
  }

  lemma InTwoParts(h: Handler, s1: seq<Segment>, s2: seq<Segment>, times: seq<nat>, percent: nat)
    requires Sound(h) && Edges(h.lastTime, s1 + s2, times)
    ensures |times| == |s1| + |s2| && Edges(h.lastTime, s1, times[..|s1|])
    ensures var mid := InterruptedAt(h, times[..|s1|], percent);
            && Edges(mid.lastTime, s2, times[|s1|..])
            && InterruptedAt(h, times, percent) == InterruptedAt(mid, times[|s1|..], percent)
  {
    hide Sound, Edges, InterruptedAt, LastTime;
    EdgesInTwoParts(h.lastTime, s1, s2, times);
    InterruptedInTwoParts(h, times[..|s1|], times[|s1|..], percent);
    assert times[..|s1|] + times[|s1|..] == times;
  }

  // ----- The line: low before a transmission and after it -----

  /** The moments at which the line changes its level, from the moment `at` on; after the segments it is low. */
  function Moments(level: bool, at: nat, segments: seq<Segment>): seq<nat>
    decreases |segments|
  {
    if segments == [] then (if level then [U32(at)] else [])
    else
      (if segments[0].high != level then [U32(at)] else []) +
      Moments(segments[0].high, at + segments[0].micros, segments[1..])
  }

  /** The levels alternate, and every segment fits an unsigned integer of the sender. */
  predicate Wave(segments: seq<Segment>, first: bool) {
    forall k :: 0 <= k < |segments| ==>
      segments[k].high == (if k % 2 == 0 then first else !first) && segments[k].micros < 0x1_0000
  }

  lemma WaveAppend(a: seq<Segment>, b: seq<Segment>, first: bool)
    requires Wave(a, first) && Wave(b, first) && |a| % 2 == 0
    ensures Wave(a + b, first)
  {
    forall k | 0 <= k < |a + b|
      ensures (a + b)[k].high == (if k % 2 == 0 then first else !first) && (a + b)[k].micros < 0x1_0000
    {
      if k >= |a| { assert (a + b)[k] == b[k - |a|]; }
    }
  }

  lemma {:induction false} DataIsWave(pro: Protocol, code: nat, n: nat)
    ensures Wave(Data(pro, code, n), !pro.inverted)
  {
    if n > 0 {
      DataIsWave(pro, code / 2, n - 1);
      WaveAppend(Data(pro, code / 2, n - 1), Transmitted(pro, PulsesOf(pro, code % 2)), !pro.inverted);
    }
  }

  lemma TrainIsWave(pro: Protocol, code: nat, n: nat)
    ensures Wave(Train(pro, code, n), !pro.inverted)
  {
    DataIsWave(pro, code, n);
    WaveAppend(Data(pro, code, n), Transmitted(pro, pro.sync), !pro.inverted);
  }

  lemma {:induction false} RepeatedIsWave(train: seq<Segment>, times: nat, first: bool)
    requires Wave(train, first) && |train| % 2 == 0
    ensures Wave(Repeated(train, times), first) && |Repeated(train, times)| % 2 == 0
    ensures times > 0 ==> |Repeated(train, times)| >= |train|
    decreases times
  {
    if times > 0 {
      RepeatedIsWave(train, times - 1, first);
      WaveAppend(Repeated(train, times - 1), train, first);
    }
  }

  lemma WaveRest(s: seq<Segment>, first: bool)
    requires Wave(s, first) && s != []
    ensures Wave(s[1..], !first)
  {
    forall k | 0 <= k < |s| - 1
      ensures s[1..][k].high == (if k % 2 == 0 then !first else first) && s[1..][k].micros < 0x1_0000
    {
      assert s[1..][k] == s[k + 1];
    }
  }

  /** The segments that an edge ends: all but a last one that is low. */
  function Ended(s: seq<Segment>): seq<Segment>
    requires s != []
  {
    if s[|s| - 1].high then s else s[..|s| - 1]
  }

  lemma OneEnded(s: seq<Segment>)
    requires |s| == 1
    ensures Ended(s) == if s[0].high then s else []
  {
  }

  lemma EndedRest(s: seq<Segment>)
    requires |s| >= 2
    ensures Ended(s) != [] && Ended(s)[0] == s[0] && Ended(s)[1..] == Ended(s[1..])
  {
    assert s[1..][|s| - 2] == s[|s| - 1];
    if !s[|s| - 1].high { assert s[..|s| - 1][1..] == s[1..][..|s| - 2]; }
  }

  lemma U32Add(x: nat, y: nat)
    ensures U32(U32(x) + y) == U32(x + y)
  {
    var q := x / 0x1_0000_0000;
    assert U32(x) + y == x + y - q * 0x1_0000_0000;
    ModLess(x + y, q);
  }

  /** An alternating line has an edge at its start and one at the end of every segment, but for the last if the
      line stays low. */
  lemma {:induction false} MomentsAreEdges(s: seq<Segment>, first: bool, at: nat)
    requires s != [] && Wave(s, first)
    ensures var times := Moments(!first, at, s);
            times != [] && times[0] == U32(at) && Edges(U32(at), Ended(s), times[1..])
    decreases |s|
  {
    hide U32, Ended;
    var times, m := Moments(!first, at, s), s[0].micros;
    var rest := Moments(first, at + m, s[1..]);
    assert s[0].high == first && times == [U32(at)] + rest;
    assert times[1..] == rest;
    U32Add(at, m);
    if |s| == 1 {
      OneEnded(s);
      assert s[1..] == [];
      if first { assert rest[1..] == [] && Ended(s)[1..] == []; }
    } else {
      WaveRest(s, first);
      MomentsAreEdges(s[1..], !first, at + m);
      EndedRest(s);
    }
  }

  /** A line that starts low, like the silence before it, has its first edge a segment later. */
  lemma MomentsOfInverted(s: seq<Segment>, at: nat)
    requires |s| >= 2 && Wave(s, false)
    ensures var times := Moments(false, at, s);
            times != [] && times[0] == U32(at + s[0].micros)
            && Edges(U32(at + s[0].micros), Ended(s[1..]), times[1..])
  {
    hide U32, Edges;
    WaveRest(s, false);
    assert !s[0].high && Moments(false, at, s) == Moments(false, at + s[0].micros, s[1..]);
    MomentsAreEdges(s[1..], true, at + s[0].micros);
  }

  // ----- Whole transmissions -----

  function GapAt(pro: Protocol, n: nat): nat {
    if pro.inverted then 2 * n else 2 * n + 1
  }

  lemma {:induction false} RepeatedFront(s: seq<Segment>, m: nat)
    ensures Repeated(s, m + 1) == s + Repeated(s, m)
  {
    if m > 0 {
      RepeatedFront(s, m - 1);
    } else {
      assert Repeated(s, 0) == [];
    }
  }

  /** Repetitions, seen from the middle of the first. */
  lemma {:induction false} Regrouped(train: seq<Segment>, g: nat, m: nat)
    requires g <= |train|
    ensures Repeated(train, m + 1) == train[..g] + (Repeated(train[g..] + train[..g], m) + train[g..])
  {
    var front, back := train[..g], train[g..];
    assert train == front + back;
    if m == 0 {
      assert Repeated(train, 0) == [] && Repeated(back + front, 0) == [];
    } else {
      Regrouped(train, g, m - 1);
      var notes := Repeated(back + front, m - 1);
      assert Repeated(train, m + 1) == Repeated(train, m) + train;
      assert Repeated(back + front, m) == notes + (back + front);
    }
  }

  /** Repetitions on the line are some data, complete notes, and what is left of the last synchronisation. */
  lemma TrainsAreNotes(pro: Protocol, code: nat, n: nat, m: nat)
    ensures var train := Train(pro, code, n);
            var g := GapAt(pro, n);
            Repeated(train, m + 1) == train[..g] + (Repeated(Noted(pro, code, n), m) + train[g..])
  {
    hide Transmitted, Data, Train, Noted, Repeated;
    var train := Train(pro, code, n);
    var g := GapAt(pro, n);
    NotedIsWindow(pro, code, n);
    assert (train + train)[g..g + 2 * n + 2] == train[g..] + train[..g];
    Regrouped(train, g, m);
  }

  lemma EndsWithGap(p: nat, code: nat, n: nat)
    requires p < |PROTOCOLS| && p != 3
    ensures var pro := PROTOCOLS[p];
            var rest := Train(pro, code, n)[GapAt(pro, n)..];
            && |rest| == (if pro.inverted then 2 else 1) && rest[0] == Noted(pro, code, n)[0] && AllShort(rest[1..])
            && rest[|rest| - 1].high == pro.inverted
  {
  }

  /** The code has been received: with its length, and, but for the code of all ones in protocol 6, its value; under
      the sender's protocol, and then with its pulse length, or under an earlier one. */
  predicate Got(r: Received, p: nat, code: nat, n: nat) {
    p < |PROTOCOLS| && r.value == Understood(p, code, n) && r.bits == n && Named(r, 0, p)
  }

  lemma OneNote(h: Handler, p: nat, code: nat, n: nat, times: seq<nat>)
    requires Sound(h) && Complete(h, p, code, n) && p != 3 && 3 <= n && code < Pow2(n)
    requires Edges(h.lastTime, Noted(PROTOCOLS[p], code, n), times)
    ensures var r := InterruptedAt(h, times, TOLERANCE);
            && Complete(r, p, code, n) && r.repeats == 1 - h.repeats
            && (if h.repeats == 1 then Got(r.received, p, code, n) else r.received == h.received)
  {
    hide Noted, Edges, AfterGap, Complete, Understood;
    CompleteMeans(h, p, code, n);
    RepetitionIsNoted(h, p, code, n, times);
    GapAfterRepetition(h, p, code, n);
  }

  lemma CompleteMeans(h: Handler, p: nat, code: nat, n: nat)
    requires Complete(h, p, code, n)
    ensures p < |PROTOCOLS| && n <= 32
  {
  }

  /** One note after the other: at every second gap the code is received. */
  lemma {:induction false} NotesAreReceived(h: Handler, p: nat, code: nat, n: nat, m: nat, times: seq<nat>)
    requires Sound(h) && Complete(h, p, code, n) && p != 3 && 3 <= n && code < Pow2(n)
    requires Edges(h.lastTime, Repeated(Noted(PROTOCOLS[p], code, n), m), times)
    ensures var r := InterruptedAt(h, times, TOLERANCE);
            && Complete(r, p, code, n) && r.repeats == (h.repeats + m) % 2
            && (if h.repeats + m >= 2 then Got(r.received, p, code, n) else r.received == h.received)
    decreases m
  {
    hide Noted, Edges, Complete, Got;
    var noted := Noted(PROTOCOLS[p], code, n) by { CompleteMeans(h, p, code, n); }
    if m == 0 {
      NoEdges(h.lastTime, times);
    } else {
      var front := Repeated(noted, m - 1);
      InTwoParts(h, front, noted, times, TOLERANCE);
      var t1, t2 := times[..|front|], times[|front|..];
      NotesAreReceived(h, p, code, n, m - 1, t1);
      OneNote(InterruptedAt(h, t1, TOLERANCE), p, code, n, t2);
    }
  }

  lemma NoEdges(from: nat, times: seq<nat>)
    requires Edges(from, [], times)
    ensures times == []
  {
  }

  /** The gap at the end of the first repetition, and what follows it. */
  lemma NotesFromAnywhere(h: Handler, p: nat, code: nat, n: nat, m: nat, times: seq<nat>)
    requires Sound(h) && p < |PROTOCOLS| && p != 3 && 3 <= n <= 32 && code < Pow2(n)
    requires Edges(h.lastTime, Repeated(Noted(PROTOCOLS[p], code, n), m + 1), times)
    ensures var r := InterruptedAt(h, times, TOLERANCE);
            var a := AfterGap(h, Noted(PROTOCOLS[p], code, n)[0].micros, TOLERANCE);
            && Complete(r, p, code, n) && r.repeats == (a.repeats + m) % 2
            && (if a.repeats + m >= 2 then Got(r.received, p, code, n) else r.received == a.received)
  {
    hide Noted, Edges, Complete, Got, AfterGap, Repeated;
    var noted := Noted(PROTOCOLS[p], code, n);
    RepeatedFront(noted, m);
    InTwoParts(h, noted, Repeated(noted, m), times, TOLERANCE);
    var t1, t2 := times[..|noted|], times[|noted|..];
    RepetitionIsNoted(h, p, code, n, t1);
    NotesAreReceived(InterruptedAt(h, t1, TOLERANCE), p, code, n, m, t2);
  }

  /** The last gap of protocol 6 and the short pulse that follows it. */
  lemma LastGap(h: Handler, rest: seq<Segment>, times: seq<nat>)
    requires Sound(h) && 1 <= |rest| <= 2 && SEPARATION_LIMIT < rest[0].micros < 0x8000 && AllShort(rest[1..])
    requires Edges(h.lastTime, rest, times)
    ensures InterruptedAt(h, times, TOLERANCE).received == AfterGap(h, rest[0].micros, TOLERANCE).received
  {
    hide AllShort, Diff, TryFrom, U16, U32;
    DurationOfSegment(h.lastTime, rest[0].micros);
    InterruptedIsSound(h, times[0], TOLERANCE);
    ShortSegmentsAreNoted(Interrupted(h, times[0], TOLERANCE), rest[1..], times[1..], TOLERANCE);
  }

  /** What goes over the line for a code, and the moments of its edges when it is sent at `at`. */
  function Transmission(p: nat, code: nat, n: nat, repeats: nat, at: nat): seq<nat>
    requires p < |PROTOCOLS|
  {
    Moments(false, at, Repeated(Train(PROTOCOLS[p], code, n), repeats))
  }

  /** Of a transmission in protocols 1, 2, 3, 5 and 7: an edge where it starts, the data of the first repetition,
      and complete notes; the last gap runs into the silence. */
  lemma EdgesOfTransmission(p: nat, code: nat, n: nat, m: nat, at: nat)
    requires p < |PROTOCOLS| && p != 3 && p != 5
    ensures var times := Transmission(p, code, n, m + 1, at);
            var pro := PROTOCOLS[p];
            && times != [] && times[0] == U32(at)
            && Edges(U32(at), Train(pro, code, n)[..2 * n + 1] + Repeated(Noted(pro, code, n), m), times[1..])
  {
    hide Transmitted, Data, Edges, Moments, Noted, Train, Repeated, Wave, AllShort, Ended, U32, PROTOCOLS;
    var pro := PROTOCOLS[p];
    var train := Train(pro, code, n);
    var line := Repeated(train, m + 1);
    OnlySixIsInverted(p);
    TrainIsWave(pro, code, n);
    RepeatedIsWave(train, m + 1, true);
    TrainsAreNotes(pro, code, n, m);
    EndsWithGap(p, code, n);
    MomentsAreEdges(line, true, at);
    AllButTheLast(train, Repeated(Noted(pro, code, n), m), 2 * n + 1);
  }

  lemma OnlySixIsInverted(p: nat)
    requires p < |PROTOCOLS|
    ensures PROTOCOLS[p].inverted <==> p == 5
  {
  }

  lemma AllButTheLast(train: seq<Segment>, notes: seq<Segment>, g: nat)
    requires g + 1 == |train| && !train[g..][0].high
    ensures var line := train[..g] + (notes + train[g..]);
            line != [] && Ended(line) == train[..g] + notes
  {
    var line := train[..g] + (notes + train[g..]);
    assert line == (train[..g] + notes) + [train[g]];
  }

  /** Of a transmission in protocol 6: its first edge comes a segment late, and its last gap has an end. */
  lemma EdgesOfInverted(code: nat, n: nat, m: nat, at: nat)
    requires n > 0
    ensures var times := Transmission(5, code, n, m + 1, at);
            var pro := PROTOCOLS[5];
            var train := Train(pro, code, n);
            && times != [] && times[0] == U32(at + train[0].micros)
            && Edges(times[0], train[1..2 * n] + (Repeated(Noted(pro, code, n), m) + train[2 * n..]), times[1..])
  {
    hide Transmitted, Data, Edges, Moments, Noted, Train, Repeated, Wave, AllShort;
    var pro, g := PROTOCOLS[5], 2 * n;
    var train, noted := Train(pro, code, n), Noted(pro, code, n);
    var line := Repeated(train, m + 1);
    TrainIsWave(pro, code, n);
    RepeatedIsWave(train, m + 1, false);
    TrainsAreNotes(pro, code, n, m);
    EndsWithGap(5, code, n);
    MomentsOfInverted(line, at);
    SecondOnwards(train, Repeated(noted, m), g);
  }

  lemma SecondOnwards(train: seq<Segment>, notes: seq<Segment>, g: nat)
    requires 0 < g && g + 2 == |train| && train[g + 1].high
    ensures var line := train[..g] + (notes + train[g..]);
            |line| >= 2 && line[0] == train[0] && Ended(line[1..]) == train[1..g] + (notes + train[g..])
  {
    var line := train[..g] + (notes + train[g..]);
    assert line[1..] == train[1..g] + (notes + train[g..]);
    assert line[1..][|line| - 2] == train[g + 1];
  }

  /** In protocols 1, 2, 3, 5 and 7 a transmission of m + 2 repetitions is received if the count of gaps, with
      the one that the handler starts from, reaches two. */
  lemma PlainTransmission(h: Handler, p: nat, code: nat, n: nat, m: nat, at: nat) returns (h0: Handler)
    requires Sound(h) && p < |PROTOCOLS| && p != 3 && p != 5 && 3 <= n <= 32 && code < Pow2(n)
    ensures var times := Transmission(p, code, n, m + 2, at);
            |times| > 2 * n + 2 && h0 == InterruptedAt(h, times[..2 * n + 2], TOLERANCE)
    ensures var r := InterruptedAt(h, Transmission(p, code, n, m + 2, at), TOLERANCE);
            var a := AfterGap(h0, Noted(PROTOCOLS[p], code, n)[0].micros, TOLERANCE);
            if a.repeats + m >= 2 then Got(r.received, p, code, n) else r.received == a.received
  {
    hide Noted, Train, Edges, Got, AfterGap, Transmission, Sound, Interrupted, InterruptedAt, Complete, U32, Repeated;
    var g := 2 * n + 1;
    var times := Transmission(p, code, n, m + 2, at);
    EdgesOfTransmission(p, code, n, m + 1, at);
    var data, noted := Train(PROTOCOLS[p], code, n)[..g], Noted(PROTOCOLS[p], code, n);
    var notes := Repeated(noted, m + 1);
    RepeatedFront(noted, m);
    var h' := FirstEdge(h, times);
    InTwoParts(h', data, notes, times[1..], TOLERANCE);
    var t1, t2 := times[1..][..g], times[1..][g..];
    h0 := InterruptedAt(h', t1, TOLERANCE);
    assert times[..g + 1] == [times[0]] + t1;
    InterruptedInTwoParts(h, [times[0]], t1, TOLERANCE);
    NotesFromAnywhere(h0, p, code, n, m, t2);
  }

  /** The first edge may come after any time. */
  lemma FirstEdge(h: Handler, times: seq<nat>) returns (h': Handler)
    requires Sound(h) && times != []
    ensures Sound(h') && h' == InterruptedAt(h, [times[0]], TOLERANCE) && h' == Interrupted(h, times[0], TOLERANCE)
    ensures h'.lastTime == times[0] && h'.changes >= 1
    ensures InterruptedAt(h, times, TOLERANCE) == InterruptedAt(h', times[1..], TOLERANCE)
  {
    hide Interrupted;
    InterruptedIsSound(h, times[0], TOLERANCE);
    h' := Interrupted(h, times[0], TOLERANCE);
    LastTimeIsSet(h, times[0]);
    assert [times[0]][1..] == [];
  }

  lemma LastTimeIsSet(h: Handler, time: nat)
    requires Sound(h)
    ensures Interrupted(h, time, TOLERANCE).lastTime == time
  {
    hide Diff, TryFrom;
  }

  lemma InvertedTransmission(h: Handler, code: nat, n: nat, m: nat, at: nat)
    requires Sound(h) && 3 <= n <= 32 && code < Pow2(n) && m >= 1
    ensures Got(InterruptedAt(h, Transmission(5, code, n, m + 2, at), TOLERANCE).received, 5, code, n)
  {
    var pro, g := PROTOCOLS[5], 2 * n;
    var times := Transmission(5, code, n, m + 2, at);
    var train, noted := Train(pro, code, n), Noted(pro, code, n);
    EdgesOfInverted(code, n, m + 1, at);
    EndsWithGap(5, code, n);
    OnlyTheGapIsLong(5, code, n);
    hide Noted, Train, Edges, AfterGap, Transmission, Repeated, AllShort;
    var data, notes, rest := train[1..g], Repeated(noted, m + 1), train[g..];
    var h' := FirstEdge(h, times);
    InTwoParts(h', data, notes + rest, times[1..], TOLERANCE);
    var t1, t2 := times[1..][..|data|], times[1..][|data|..];
    NotesThenGap(InterruptedAt(h', t1, TOLERANCE), code, n, m, t2);
  }

  lemma NotesThenGap(h: Handler, code: nat, n: nat, m: nat, times: seq<nat>)
    requires Sound(h) && 3 <= n <= 32 && code < Pow2(n) && m >= 1
    requires Edges(h.lastTime, Repeated(Noted(PROTOCOLS[5], code, n), m + 1) + Train(PROTOCOLS[5], code, n)[2 * n..],
                   times)
    ensures Got(InterruptedAt(h, times, TOLERANCE).received, 5, code, n)
  {
    hide Noted, Train, Edges, AfterGap, Repeated, AllShort, Complete, Understood;
    EndsWithGap(5, code, n);
    OnlyTheGapIsLong(5, code, n);
    var noted := Noted(PROTOCOLS[5], code, n);
    var notes, rest := Repeated(noted, m + 1), Train(PROTOCOLS[5], code, n)[2 * n..];
    InTwoParts(h, notes, rest, times, TOLERANCE);
    NotesFromAnywhere(h, 5, code, n, m, times[..|notes|]);
    GapsLeft(h, noted[0].micros);
    var h1 := InterruptedAt(h, times[..|notes|], TOLERANCE);
    GapAfterRepetition(h1, 5, code, n);
    LastGap(h1, rest, times[|notes|..]);
  }

  lemma GapsLeft(h: Handler, gap: nat)
    requires Sound(h)
    ensures AfterGap(h, gap, TOLERANCE).repeats <= 1
  {
    hide Diff, TryFrom;
  }

  /** Any code of 3 to 32 bits that is sent over a line that is low before and after is received, whatever the
      handler was doing before and however long the silence was, in every predefined protocol except number 4:
      in protocol 6 if it is sent at least three times, in the others at least four times. */
  lemma TransmissionIsReceived(h: Handler, p: nat, code: nat, n: nat, repeats: nat, at: nat)
    requires Sound(h) && p < |PROTOCOLS| && p != 3 && 3 <= n <= 32 && code < Pow2(n)
    requires repeats >= if p == 5 then 3 else 4
    ensures Got(InterruptedAt(h, Transmission(p, code, n, repeats, at), TOLERANCE).received, p, code, n)
  {
    hide Got, Transmission, AfterGap, Sound;
    if p == 5 {
      InvertedTransmission(h, code, n, repeats - 2, at);
    } else {
      var h0 := PlainTransmission(h, p, code, n, repeats - 2, at);
    }
  }

  lemma ThreeRepetitions(h: Handler, p: nat, code: nat, n: nat, at: nat)
    requires Sound(h) && p < |PROTOCOLS| && p != 3 && p != 5 && 3 <= n <= 32 && code < Pow2(n)
    requires Duration(h, U32(at)) > SEPARATION_LIMIT
    requires Diff(Noted(PROTOCOLS[p], code, n)[0].micros, Duration(h, U32(at))) >= 200
    ensures var r := InterruptedAt(h, Transmission(p, code, n, 3, at), TOLERANCE);
            var a := AfterGap(h, Duration(h, U32(at)), TOLERANCE);
            if a.repeats == 1 then Got(r.received, p, code, n) else r.received == a.received
  {
    hide Noted, Train, Edges, Got, Transmission, Diff, TryFrom, AllShort, Repeated, Interrupted, AfterGap, Duration;
    var g := 2 * n + 1;
    var times := Transmission(p, code, n, 3, at);
    var h0 := PlainTransmission(h, p, code, n, 1, at);
    EdgesOfTransmission(p, code, n, 2, at);
    TrainIsShort(p, code, n);
    var data := Train(PROTOCOLS[p], code, n)[..g];
    var h' := FirstEdge(h, times);
    SilenceEnds(h, times[0]);
    InTwoParts(h', data, Repeated(Noted(PROTOCOLS[p], code, n), 2), times[1..], TOLERANCE);
    assert times[..g + 1] == [times[0]] + times[1..][..g];
    InterruptedInTwoParts(h, [times[0]], times[1..][..g], TOLERANCE);
    ShortSegmentsAreNoted(h', data, times[1..][..g], TOLERANCE);
    UnlikeGap(h0, Noted(PROTOCOLS[p], code, n)[0].micros);
  }

  /** Three repetitions are not enough for the others: after a silence unlike the gap they are received exactly
      if the handler has counted one gap by its end, before the silence, which is unlike the one noted then, or with
      it. */
  lemma ThreeRepetitionsIff(h: Handler, p: nat, code: nat, n: nat, at: nat)
    requires Sound(h) && p < |PROTOCOLS| && p != 3 && p != 5 && 3 <= n <= 32 && code < Pow2(n)
    requires Duration(h, U32(at)) > SEPARATION_LIMIT
    requires Diff(Noted(PROTOCOLS[p], code, n)[0].micros, Duration(h, U32(at))) >= 200
    ensures var r := InterruptedAt(h, Transmission(p, code, n, 3, at), TOLERANCE);
            var like := Diff(Duration(h, U32(at)), h.timings[0]) < 200;
            if like == (h.repeats == 0) then Got(r.received, p, code, n)
            else r.received == if like then TryFrom(h, TOLERANCE, 0) else h.received
  {
    hide *;
    ThreeRepetitions(h, p, code, n, at);
    GapCounts(h, Duration(h, U32(at)));
  }

  lemma SilenceEnds(h: Handler, time: nat)
    requires Sound(h) && Duration(h, time) > SEPARATION_LIMIT
    ensures var r := Interrupted(h, time, TOLERANCE);
            var a := AfterGap(h, Duration(h, time), TOLERANCE);
            && r.changes == 1 && r.timings[0] == Duration(h, time) && r.repeats == a.repeats && r.received == a.received
  {
    hide Diff, TryFrom;
  }

  /** A gap like the one before counts, one unlike it does not, and the second that counts is the end of a code. */
  lemma GapCounts(h: Handler, gap: nat)
    requires Sound(h)
    ensures var a := AfterGap(h, gap, TOLERANCE);
            var like := Diff(gap, h.timings[0]) < 200;
            && h.repeats <= 1 && a.repeats == (if like then 1 - h.repeats else h.repeats)
            && a.received == if like && h.repeats == 1 then TryFrom(h, TOLERANCE, 0) else h.received
  {
    hide Diff, TryFrom;
  }

  /** A gap that is unlike the one before counts for nothing. */
  lemma UnlikeGap(h: Handler, gap: nat)
    requires Sound(h)
    ensures var a := AfterGap(h, gap, TOLERANCE);
            Diff(gap, h.timings[0]) >= 200 ==> a.repeats == h.repeats && a.received == h.received
  {
    hide Diff, TryFrom;
  }

  lemma TrainIsShort(p: nat, code: nat, n: nat)
    requires p < |PROTOCOLS|
    ensures AllShort(Train(PROTOCOLS[p], code, n)[..2 * n + 1]) || p == 5
  {
    DataIsShort(p, code, n);
    var data := Data(PROTOCOLS[p], code, n);
    assert forall k :: 0 <= k < 2 * n ==> Train(PROTOCOLS[p], code, n)[k] == data[k];
  }

  /** A receiver that has heard nothing before misses three repetitions that start a second later. */
  lemma FreshMissesThree(p: nat, code: nat, n: nat)
    requires p < |PROTOCOLS| && p != 3 && p != 5 && 3 <= n <= 32 && code < Pow2(n)
    ensures var h := Handler(0, 0, 0, seq(MAX_CHANGES, _ => 0), Received(0, 0, 0, 0));
            InterruptedAt(h, Transmission(p, code, n, 3, 1_000_000), TOLERANCE).received == h.received
  {
    hide Noted, Interrupted, Transmission, Diff, Duration, AfterGap, Got;
    var h := Handler(0, 0, 0, seq(MAX_CHANGES, _ => 0), Received(0, 0, 0, 0));
    ASecondOfSilence(h);
    GapsAreUnlikeIt(p, code, n);
    UnlikeGap(h, 16960);
    ThreeRepetitionsIff(h, p, code, n, 1_000_000);
  }

  /** A second shows as 16960 microseconds in 16 bits. */
  lemma ASecondOfSilence(h: Handler)
    requires h.lastTime == 0
    ensures Duration(h, U32(1_000_000)) == 16960 && Diff(16960, 0) >= 200
  {
  }

  lemma GapsAreUnlikeIt(p: nat, code: nat, n: nat)
    requires p < |PROTOCOLS| && p != 3 && p != 5
    ensures Diff(Noted(PROTOCOLS[p], code, n)[0].micros, 16960) >= 200
  {
    assert Noted(PROTOCOLS[p], code, n)[0].micros <= 10850;
  }

  lemma {:induction false} NothingWithoutGap(h: Handler, segments: seq<Segment>, times: seq<nat>, percent: nat)
    requires Sound(h) && AllShort(segments) && Edges(h.lastTime, segments, times)
    ensures InterruptedAt(h, times, percent).received == h.received
    decreases |segments|
  {
    if segments != [] {
      hide U16, U32, TryFrom, Diff, AfterGap;
      InterruptedIsSound(h, times[0], percent);
      DurationOfSegment(h.lastTime, segments[0].micros);
      NothingWithoutGap(Interrupted(h, times[0], percent), segments[1..], times[1..], percent);
    }
  }

  lemma {:induction false} RepeatedIsShort(train: seq<Segment>, times: nat)
    requires AllShort(train)
    ensures AllShort(Repeated(train, times))
    decreases times
  {
    if times > 0 { RepeatedIsShort(train, times - 1); }
  }

  /** Within one transmission nothing of protocol 4 is received: its gap is shorter than the separation limit,
      so that however often a code is repeated without a pause, nothing is decoded. */
  lemma Protocol4NeedsPauses(h: Handler, code: nat, n: nat, repeats: nat, times: seq<nat>, percent: nat)
    requires Sound(h) && Edges(h.lastTime, Repeated(Train(PROTOCOLS[3], code, n), repeats), times)
    ensures InterruptedAt(h, times, percent).received == h.received
  {
    DataIsShort(3, code, n);
    assert AllShort(Train(PROTOCOLS[3], code, n));
    RepeatedIsShort(Train(PROTOCOLS[3], code, n), repeats);
    NothingWithoutGap(h, Repeated(Train(PROTOCOLS[3], code, n), repeats), times, percent);
  }

  /** So the one edge of a transmission that can bring anything is its first, which ends the silence. */
  lemma Protocol4OnTheLine(h: Handler, code: nat, n: nat, repeats: nat, at: nat)
    requires Sound(h) && repeats > 0
    ensures InterruptedAt(h, Transmission(3, code, n, repeats, at), TOLERANCE).received ==
              Interrupted(h, U32(at), TOLERANCE).received
  {
    var train, times := Train(PROTOCOLS[3], code, n), Transmission(3, code, n, repeats, at);
    DataIsShort(3, code, n);
    assert AllShort(train);
    TrainIsWave(PROTOCOLS[3], code, n);
    RepeatedIsShort(train, repeats);
    RepeatedIsWave(train, repeats, true);
    var line := Repeated(train, repeats);
    hide Train, Repeated, Interrupted;
    MomentsAreEdges(line, true, at);
    var h' := FirstEdge(h, times);
    assert AllShort(Ended(line));
    NothingWithoutGap(h', Ended(line), times[1..], TOLERANCE);
  }

  // ----- What is reported, and what is taken for noise -----

  /** r is what protocol number q + 1 makes of at least eight durations, of which the earlier ones make nothing. */
  predicate Reports(h: Handler, percent: nat, i: nat, q: nat, r: Received)
    requires 1 <= h.changes <= MAX_CHANGES
  {
    && i <= q < |PROTOCOLS| && r.protocol == q + 1 && 8 <= h.changes
    && Decode(PROTOCOLS[q], h.timings, h.changes, percent) == Some(r.value)
    && (forall j :: i <= j < q ==> Decode(PROTOCOLS[j], h.timings, h.changes, percent) == None)
    && 2 * r.bits + 1 <= h.changes <= 2 * r.bits + 2
    && r.delay * SyncLength(PROTOCOLS[q]) <= h.timings[0] < (r.delay + 1) * SyncLength(PROTOCOLS[q])
  }

  predicate NoneReads(h: Handler, percent: nat, i: nat)
    requires 1 <= h.changes <= MAX_CHANGES
  {
    forall j :: i <= j < |PROTOCOLS| ==> Decode(PROTOCOLS[j], h.timings, h.changes, percent) == None
  }

  lemma {:induction false} TryReports(h: Handler, percent: nat, i: nat)
    requires 1 <= h.changes <= MAX_CHANGES && i <= |PROTOCOLS|
    ensures var r := TryFrom(h, percent, i);
            || (exists q: nat :: Reports(h, percent, i, q, r))
            || (r == h.received && NoneReads(h, percent, i))
    decreases |PROTOCOLS| - i
  {
    hide Decode, PROTOCOLS, Reports;
    if i < |PROTOCOLS| {
      if Decode(PROTOCOLS[i], h.timings, h.changes, percent).Some? {
        ReportsNow(h, percent, i);
      } else {
        TryReports(h, percent, i + 1);
        TryNext(h, percent, i);
        var r := TryFrom(h, percent, i + 1);
        if !(r == h.received && NoneReads(h, percent, i + 1)) {
          var q: nat :| Reports(h, percent, i + 1, q, r);
          ReportsLater(h, percent, i, q, r);
        }
      }
    } else {
      NoneLeft(h, percent);
    }
  }

  lemma TryNext(h: Handler, percent: nat, i: nat)
    requires 1 <= h.changes <= MAX_CHANGES && i < |PROTOCOLS|
    requires Decode(PROTOCOLS[i], h.timings, h.changes, percent) == None
    ensures TryFrom(h, percent, i) == TryFrom(h, percent, i + 1)
    ensures NoneReads(h, percent, i + 1) ==> NoneReads(h, percent, i)
  {
    hide Decode, PROTOCOLS;
  }

  lemma NoneLeft(h: Handler, percent: nat)
    requires 1 <= h.changes <= MAX_CHANGES
    ensures TryFrom(h, percent, |PROTOCOLS|) == h.received && NoneReads(h, percent, |PROTOCOLS|)
  {
    hide PROTOCOLS;
  }

  lemma ReportsNow(h: Handler, percent: nat, i: nat)
    requires 1 <= h.changes <= MAX_CHANGES && i < |PROTOCOLS|
    requires Decode(PROTOCOLS[i], h.timings, h.changes, percent).Some?
    ensures Reports(h, percent, i, i, TryFrom(h, percent, i))
  {
    hide Decode, PROTOCOLS;
    DecodesEight(PROTOCOLS[i], h.timings, h.changes, percent);
    DelayBounds(i, h.timings);
  }

  lemma ReportsLater(h: Handler, percent: nat, i: nat, q: nat, r: Received)
    requires 1 <= h.changes <= MAX_CHANGES && i < |PROTOCOLS| && Reports(h, percent, i + 1, q, r)
    requires Decode(PROTOCOLS[i], h.timings, h.changes, percent) == None
    ensures Reports(h, percent, i, q, r)
  {
    hide Decode, PROTOCOLS;
  }

  lemma DecodesEight(pro: Protocol, timings: Timings, changes: nat, percent: nat)
    requires 1 <= changes <= MAX_CHANGES && Decode(pro, timings, changes, percent).Some?
    ensures changes >= 8
  {
  }

  lemma DelayBounds(q: nat, timings: Timings)
    requires q < |PROTOCOLS|
    ensures var long := SyncLength(PROTOCOLS[q]);
            var delay := Delay(PROTOCOLS[q], timings);
            delay * long <= timings[0] < (delay + 1) * long
  {
    PredefinedAreReadable(q);
  }

  /** Something is received only at a gap of more than 4300 microseconds, within 200 of the one that the noted durations
      start with, when a gap has been counted before; and what is received is what the first protocol that makes sense
      of the durations makes of them, with its number and the pulse length it suggests. */
  lemma ReceptionMeans(h: Handler, time: nat, percent: nat)
    requires Sound(h) && Interrupted(h, time, percent).received != h.received
    ensures var gap := U16(U32(time - h.lastTime));
            gap > 4300 && Diff(gap, h.timings[0]) < 200 && h.repeats == 1 && h.changes >= 8
    ensures exists q: nat :: Reports(h, percent, 0, q, Interrupted(h, time, percent).received)
  {
    hide TryFrom, Diff;
    TryReports(h, percent, 0);
  }

  lemma OneShort(h: Handler, micros: nat, time: nat, percent: nat)
    requires Sound(h) && micros <= SEPARATION_LIMIT && time == U32(h.lastTime + micros)
    ensures var r := Interrupted(h, time, percent);
            && Sound(r) && r.lastTime == time && r.received == h.received
            && r.changes == (if h.changes == 67 then 1 else h.changes + 1)
            && r.repeats == if h.changes == 67 then 0 else h.repeats
  {
    hide U16, U32, TryFrom, Diff, AfterGap;
    DurationOfSegment(h.lastTime, micros);
  }

  /** Short durations bring nothing, and when there are more than the buffer holds, the count of gaps is forgotten. */
  lemma {:induction false} ShortsOverflow(h: Handler, segments: seq<Segment>, times: seq<nat>, percent: nat)
    requires Sound(h) && AllShort(segments) && Edges(h.lastTime, segments, times)
    ensures var r := InterruptedAt(h, times, percent);
            && r.received == h.received && (h.repeats == 0 ==> r.repeats == 0)
            && (r.repeats == 0 || r.changes == h.changes + |segments|)
    decreases |segments|
  {
    if segments != [] {
      hide Interrupted, U32;
      OneShort(h, segments[0].micros, times[0], percent);
      ShortsOverflow(Interrupted(h, times[0], percent), segments[1..], times[1..], percent);
    }
  }

  /** A burst of more than 67 short pulses is noise: neither it nor the gap after it brings anything. */
  lemma BurstIsNoise(h: Handler, segments: seq<Segment>, times: seq<nat>, after: nat, percent: nat)
    requires Sound(h) && AllShort(segments) && Edges(h.lastTime, segments, times) && |segments| > 67
    ensures InterruptedAt(h, times + [after], percent).received == h.received
  {
    hide Interrupted, TryFrom, Diff, Edges, AllShort;
    ShortsOverflow(h, segments, times, percent);
    InterruptedInTwoParts(h, times, [after], percent);
    var r := InterruptedAt(h, times, percent);
    assert [after][1..] == [];
    if Interrupted(r, after, percent).received != r.received { ReceptionMeans(r, after, percent); }
  }
}

/**
 Codes of protocol 4 that are sent one at a time, with pauses: the pause and the synchronisation pulse before a
 code make one long gap, which can be above the separation limit.
 */
module RcSwitchPauses {
  import opened Words
  import opened RcSwitchSpec

  /** What the receiver has noted of one such code at the next gap. */
  function Paused(code: nat, n: nat, gap: nat): (s: seq<Segment>)
    ensures |s| == 2 * n + 2
  {
    [Segment(false, gap)] + Data(PROTOCOLS[3], code, n) + [Transmitted(PROTOCOLS[3], PROTOCOLS[3].sync)[0]]
  }

  lemma PausedDurations(timings: Timings, code: nat, n: nat, gap: nat)
    requires n <= 32 && Holds(timings, Paused(code, n, gap))
    ensures timings[0] == gap && timings[2 * n + 1] == 380
    ensures forall k :: 0 <= k < n ==>
              if Bit(code, n - 1 - k) == 0 then timings[1 + 2 * k] == 380 && timings[2 + 2 * k] == 1140
              else timings[1 + 2 * k] == 1140 && timings[2 + 2 * k] == 380
  {
    var s := Paused(code, n, gap);
    var data := Data(PROTOCOLS[3], code, n);
    forall k | 0 <= k < n
      ensures if Bit(code, n - 1 - k) == 0 then timings[1 + 2 * k] == 380 && timings[2 + 2 * k] == 1140
              else timings[1 + 2 * k] == 1140 && timings[2 + 2 * k] == 380
    {
      DataAt(PROTOCOLS[3], code, n, k);
      assert data[2 * k] == data[2 * k..2 * k + 2][0] && data[2 * k + 1] == data[2 * k..2 * k + 2][1];
      assert s[1 + 2 * k] == data[2 * k] && s[2 + 2 * k] == data[2 * k + 1];
    }
    assert s[0].micros == gap && s[2 * n + 1].micros == 380;
  }

  /** What protocol q makes of a bit after that gap. */
  function Heard(q: Protocol, gap: nat, bit: nat): Option<nat>
    requires SyncLength(q) > 0
  {
    var delay := gap / SyncLength(q);
    BitRead(q, if bit == 0 then 380 else 1140, if bit == 0 then 1140 else 380, delay, Tolerance(delay, TOLERANCE))
  }

  lemma ToleranceBound(delay: nat)
    ensures Tolerance(delay, TOLERANCE) <= 655 && Tolerance(delay, TOLERANCE) * 100 <= 60 * delay
    ensures delay <= 1092 ==> Tolerance(delay, TOLERANCE) == 60 * delay / 100
  {
    ModIsLess(delay * TOLERANCE);
    hide U16;
  }

  lemma ModIsLess(x: nat)
    ensures U16(x) <= x && U16(x) < 0x1_0000 && (x < 0x1_0000 ==> U16(x) == x)
  {
  }

  /** Protocol 1 hears both bits for gaps from 9827 to 14724 microseconds, and none for others. */
  lemma Protocol1Hears(gap: nat, bit: nat)
    requires SEPARATION_LIMIT < gap < 0x1_0000 && bit < 2
    ensures Heard(PROTOCOLS[0], gap, bit) == if 9827 <= gap <= 14724 then Some(bit) else None
  {
    hide Tolerance, BitRead;
    ToleranceBound(gap / 31);
    ReadIsReadAt(PROTOCOLS[0], if bit == 0 then 380 else 1140, if bit == 0 then 1140 else 380, gap / 31,
                 Tolerance(gap / 31, TOLERANCE));
  }

  lemma Protocol2Hears(gap: nat, bit: nat)
    requires SEPARATION_LIMIT < gap < 0x1_0000 && bit < 2
    ensures Heard(PROTOCOLS[1], gap, bit) == if 4390 <= gap <= 8139 then Some(bit) else None
  {
    hide Tolerance, BitRead;
    ToleranceBound(gap / 10);
    ReadIsReadAt(PROTOCOLS[1], if bit == 0 then 380 else 1140, if bit == 0 then 1140 else 380, gap / 10,
                 Tolerance(gap / 10, TOLERANCE));
  }

  lemma Protocol3Hears(gap: nat, bit: nat)
    requires SEPARATION_LIMIT < gap < 0x1_0000 && bit < 2
    ensures Heard(PROTOCOLS[2], gap, bit) == if bit == 0 && 7029 <= gap <= 7809 then Some(0) else None
  {
    hide Tolerance, BitRead;
    ToleranceBound(gap / 71);
    ReadIsReadAt(PROTOCOLS[2], if bit == 0 then 380 else 1140, if bit == 0 then 1140 else 380, gap / 71,
                 Tolerance(gap / 71, TOLERANCE));
  }

  lemma Protocol4Hears(gap: nat, bit: nat)
    requires SEPARATION_LIMIT < gap < 0x1_0000 && bit < 2
    ensures Heard(PROTOCOLS[3], gap, bit) == None
  {
    hide Tolerance, BitRead;
    ToleranceBound(gap / 6);
    ReadIsReadAt(PROTOCOLS[3], if bit == 0 then 380 else 1140, if bit == 0 then 1140 else 380, gap / 6,
                 Tolerance(gap / 6, TOLERANCE));
  }

  lemma Protocol5Hears(gap: nat, bit: nat)
    requires SEPARATION_LIMIT < gap < 0x1_0000 && bit < 2
    ensures Heard(PROTOCOLS[4], gap, bit) == if 6146 <= gap <= 11395 then Some(bit) else None
  {
    hide Tolerance, BitRead;
    ToleranceBound(gap / 14);
    ReadIsReadAt(PROTOCOLS[4], if bit == 0 then 380 else 1140, if bit == 0 then 1140 else 380, gap / 14,
                 Tolerance(gap / 14, TOLERANCE));
  }

  lemma Protocol7Hears(gap: nat, bit: nat)
    requires SEPARATION_LIMIT < gap < 0x1_0000 && bit < 2
    ensures Heard(PROTOCOLS[6], gap, bit) == None
  {
    hide Tolerance, BitRead;
    ToleranceBound(gap / 62);
    ReadIsReadAt(PROTOCOLS[6], if bit == 0 then 380 else 1140, if bit == 0 then 1140 else 380, gap / 62,
                 Tolerance(gap / 62, TOLERANCE));
  }

  /** A protocol that hears every bit right or not at all reads the code right or not at all. */
  lemma {:induction false} HeardCode(q: nat, timings: Timings, code: nat, n: nat, gap: nat, k: nat)
    requires q < |PROTOCOLS| && q != 5 && k <= n <= 32 && code < 0x1_0000_0000 && Holds(timings, Paused(code, n, gap))
    requires forall bit :: 0 <= bit < 2 ==>
               Heard(PROTOCOLS[q], gap, bit) == None || Heard(PROTOCOLS[q], gap, bit) == Some(bit)
    ensures var delay := Delay(PROTOCOLS[q], timings);
            var read := DecodeFrom(PROTOCOLS[q], timings, 2 * n + 2, delay, Tolerance(delay, TOLERANCE), 1 + 2 * k,
                                   Shifted(code, n - k));
            && (read == None || read == Some(code))
            && ((forall bit :: 0 <= bit < 2 ==> Heard(PROTOCOLS[q], gap, bit) == Some(bit)) ==> read == Some(code))
            && (k < n && (forall bit :: 0 <= bit < 2 ==> Heard(PROTOCOLS[q], gap, bit) == None) ==> read == None)
    decreases n - k
  {
    hide BitRead, Paused, Tolerance, U32, Bit, Holds;
    if k < n {
      PausedDurations(timings, code, n, gap);
      BitIsBit(code, n - 1 - k);
      OneMoreBit(code, n, k);
      HeardCode(q, timings, code, n, gap, k + 1);
      var bit := Bit(code, n - 1 - k);
      assert Heard(PROTOCOLS[q], gap, bit) == None || Heard(PROTOCOLS[q], gap, bit) == Some(bit);
    }
  }

  /** The last bit of what is read comes from the last pair of durations. */
  lemma {:induction false} LastPair(pro: Protocol, timings: Timings, n: nat, delay: nat, tolerance: nat, k: nat,
                                    code: nat)
    requires k < n <= 32
    ensures var read := DecodeFrom(pro, timings, 2 * n + 2, delay, tolerance, 2 + 2 * k, code);
            read.Some? ==> BitRead(pro, timings[2 * n], timings[2 * n + 1], delay, tolerance) == Some(read.value % 2)
    decreases n - k
  {
    hide BitRead;
    match BitRead(pro, timings[2 + 2 * k], timings[3 + 2 * k], delay, tolerance)
    case Some(bit) =>
      if k + 1 < n { LastPair(pro, timings, n, delay, tolerance, k + 1, U32(2 * code) + bit); }
    case None =>
  }

  /** Outside the gaps at which others read the code, protocol 6 reads it wrong or not at all: it takes the
      second half of the last bit with the synchronisation pulse for a one, but only after a zero. */
  lemma Protocol6Mishears(timings: Timings, code: nat, n: nat, gap: nat)
    requires SEPARATION_LIMIT < gap < 0x1_0000 && !(4390 <= gap <= 14724)
    requires 3 <= n <= 32 && Holds(timings, Paused(code, n, gap))
    ensures Decode(PROTOCOLS[5], timings, 2 * n + 2, TOLERANCE) != Some(code)
  {
    PausedDurations(timings, code, n, gap);
    var delay := Delay(PROTOCOLS[5], timings);
    var tolerance := Tolerance(delay, TOLERANCE);
    assert delay == gap / 23;
    LastPair(PROTOCOLS[5], timings, n, delay, tolerance, 0, 0);
    ToleranceBound(delay);
    assert Bit(code, 0) == code % 2;
    assert timings[2 * n] == timings[2 + 2 * (n - 1)] == if code % 2 == 0 then 1140 else 380;
    hide BitRead, Tolerance, Paused, Holds, DecodeFrom, Bit;
    ReadIsReadAt(PROTOCOLS[5], timings[2 * n], 380, delay, tolerance);
  }

  /** What the first protocol from number i on that makes sense of the durations reads. */
  function FirstRead(timings: Timings, changes: nat, percent: nat, i: nat): Option<nat>
    requires 1 <= changes <= MAX_CHANGES && i <= |PROTOCOLS|
    decreases |PROTOCOLS| - i
  {
    if i == |PROTOCOLS| then None
    else
      match Decode(PROTOCOLS[i], timings, changes, percent)
      case Some(code) => Some(code)
      case None => FirstRead(timings, changes, percent, i + 1)
  }

  lemma {:induction false} TryIsFirstRead(h: Handler, percent: nat, i: nat)
    requires 1 <= h.changes <= MAX_CHANGES && i <= |PROTOCOLS|
    ensures match FirstRead(h.timings, h.changes, percent, i)
            case Some(code) =>
              TryFrom(h, percent, i).value == code && TryFrom(h, percent, i).bits == (h.changes - 1) / 2
            case None => TryFrom(h, percent, i) == h.received
    decreases |PROTOCOLS| - i
  {
    hide Decode;
    if i < |PROTOCOLS| { TryIsFirstRead(h, percent, i + 1); }
  }

  /** The gaps at which one of three protocols hears both bits. */
  predicate InReach(q: nat, gap: nat) {
    || (q == 0 && 9827 <= gap <= 14724)
    || (q == 1 && 4390 <= gap <= 8139)
    || (q == 4 && 6146 <= gap <= 11395)
  }

  lemma OthersHear(q: nat, timings: Timings, code: nat, n: nat, gap: nat)
    requires q < |PROTOCOLS| && q != 5 && SEPARATION_LIMIT < gap < 0x1_0000
    requires 3 <= n <= 32 && code < Pow2(n) && Holds(timings, Paused(code, n, gap))
    ensures var read := Decode(PROTOCOLS[q], timings, 2 * n + 2, TOLERANCE);
            && (read == None || read == Some(code))
            && (InReach(q, gap) ==> read == Some(code))
            && (!(4390 <= gap <= 14724) ==> read == None)
  {
    hide Paused, Heard, DecodeFrom, Holds;
    Pow2Bound(n);
    FitsInBits(code, n);
    forall bit | 0 <= bit < 2
      ensures Heard(PROTOCOLS[q], gap, bit) == None || Heard(PROTOCOLS[q], gap, bit) == Some(bit)
      ensures InReach(q, gap) ==> Heard(PROTOCOLS[q], gap, bit) == Some(bit)
      ensures !(4390 <= gap <= 14724) ==> Heard(PROTOCOLS[q], gap, bit) == None
    {
      Protocol1Hears(gap, bit);
      Protocol2Hears(gap, bit);
      Protocol3Hears(gap, bit);
      Protocol4Hears(gap, bit);
      Protocol5Hears(gap, bit);
      Protocol7Hears(gap, bit);
    }
    HeardCode(q, timings, code, n, gap, 0);
    assert !PROTOCOLS[q].inverted;
  }

  /** A code of protocol 4 sent with pauses is read right exactly if the gaps before it are from 4390 to 14724
      microseconds long. */
  lemma PausedCodeIsReadIff(timings: Timings, code: nat, n: nat, gap: nat)
    requires SEPARATION_LIMIT < gap < 0x1_0000
    requires 3 <= n <= 32 && code < Pow2(n) && Holds(timings, Paused(code, n, gap))
    ensures FirstRead(timings, 2 * n + 2, TOLERANCE, 0) == Some(code) <==> 4390 <= gap <= 14724
  {
    hide Paused, Decode, Holds;
    OthersHear(0, timings, code, n, gap);
    OthersHear(1, timings, code, n, gap);
    OthersHear(2, timings, code, n, gap);
    OthersHear(3, timings, code, n, gap);
    OthersHear(4, timings, code, n, gap);
    OthersHear(6, timings, code, n, gap);
    if !(4390 <= gap <= 14724) { Protocol6Mishears(timings, code, n, gap); }
    NextTry(timings, 2 * n + 2, 0);
    NextTry(timings, 2 * n + 2, 1);
    NextTry(timings, 2 * n + 2, 2);
    NextTry(timings, 2 * n + 2, 3);
    NextTry(timings, 2 * n + 2, 4);
    NextTry(timings, 2 * n + 2, 5);
    NextTry(timings, 2 * n + 2, 6);
    assert FirstRead(timings, 2 * n + 2, TOLERANCE, 7) == None;
  }

  lemma NextTry(timings: Timings, changes: nat, i: nat)
    requires 1 <= changes <= MAX_CHANGES && i < |PROTOCOLS|
    ensures var read := Decode(PROTOCOLS[i], timings, changes, TOLERANCE);
            FirstRead(timings, changes, TOLERANCE, i) ==
              if read.Some? then read else FirstRead(timings, changes, TOLERANCE, i + 1)
  {
    hide Decode;
  }

  /** A gap and short segments after it fill the buffer. */
  lemma GapThenShort(h: Handler, segments: seq<Segment>, times: seq<nat>)
    requires Sound(h) && 1 <= |segments| <= MAX_CHANGES && AllShort(segments[1..])
    requires SEPARATION_LIMIT < segments[0].micros < 0x1_0000 && Edges(h.lastTime, segments, times)
    ensures var r := InterruptedAt(h, times, TOLERANCE);
            var a := AfterGap(h, segments[0].micros, TOLERANCE);
            r.changes == |segments| && Holds(r.timings, segments) && r.repeats == a.repeats && r.received == a.received
  {
    hide AllShort, Diff, TryFrom, U16, U32;
    DurationOfSegment(h.lastTime, segments[0].micros);
    InterruptedIsSound(h, times[0], TOLERANCE);
    var next := Interrupted(h, times[0], TOLERANCE);
    assert next.changes == 1 && next.timings[0] == segments[0].micros;
    ShortSegmentsAreNoted(next, segments[1..], times[1..], TOLERANCE);
    var r := InterruptedAt(h, times, TOLERANCE);
    forall k | 0 <= k < |segments|
      ensures r.timings[k] == segments[k].micros
    {
      if k > 0 { assert segments[k] == segments[1..][k - 1]; }
    }
  }

  lemma PausedIsShort(code: nat, n: nat, gap: nat)
    ensures AllShort(Paused(code, n, gap)[1..]) && Paused(code, n, gap)[0].micros == gap
  {
    DataIsShort(3, code, n);
    var s := Paused(code, n, gap);
    forall k | 0 <= k < 2 * n + 1
      ensures s[1..][k].micros <= SEPARATION_LIMIT
    {
      if k < 2 * n { assert s[k + 1] == Data(PROTOCOLS[3], code, n)[k]; }
    }
  }

  /** At the next gap of about the same length. */
  lemma GapAfterPaused(h: Handler, code: nat, n: nat, gap: nat, next: nat)
    requires Sound(h) && h.changes == 2 * n + 2 && Holds(h.timings, Paused(code, n, gap))
    requires 4390 <= gap <= 14724 && next < 0x8000 && Close(next, gap, 200) && 3 <= n <= 32 && code < Pow2(n)
    ensures var a := AfterGap(h, next, TOLERANCE);
            && a.repeats == 1 - h.repeats
            && (if h.repeats == 1 then GotPaused(a.received, code, n) else a.received == h.received)
  {
    PausedDurations(h.timings, code, n, gap);
    DiffSmall(next, gap);
    PausedCodeIsReadIff(h.timings, code, n, gap);
    TryIsFirstRead(h, TOLERANCE, 0);
    hide Paused, TryFrom, FirstRead, Diff, Holds;
  }

  predicate GotPaused(r: Received, code: nat, n: nat) {
    r.value == code && r.bits == n
  }

  // ----- Sends over an idle line -----

  /** What one such send puts between the first edge and the last. */
  function Body(code: nat, n: nat): (s: seq<Segment>)
    ensures |s| == 2 * n + 1
  {
    Data(PROTOCOLS[3], code, n) + [Transmitted(PROTOCOLS[3], PROTOCOLS[3].sync)[0]]
  }

  function Length(segments: seq<Segment>): nat {
    if segments == [] then 0 else segments[0].micros + Length(segments[1..])
  }

  /** The edges of sends that start at the given moments, on a line that is low between them. */
  function Sends(code: nat, n: nat, starts: seq<nat>): seq<nat> {
    if starts == [] then []
    else Sends(code, n, starts[..|starts| - 1]) + Transmission(3, code, n, 1, starts[|starts| - 1])
  }

  /** How long the line has been low when send number i starts. */
  function Pause(code: nat, n: nat, starts: seq<nat>, i: nat): int
    requires 1 <= i < |starts|
  {
    starts[i] - (starts[i - 1] + Length(Body(code, n)))
  }

  /** The pauses are in reach, and each is like the one before. */
  predicate Regular(code: nat, n: nat, starts: seq<nat>) {
    && (forall i :: 1 <= i < |starts| ==> 4390 <= Pause(code, n, starts, i) <= 14724)
    && (forall i :: 2 <= i < |starts| ==> Close(Pause(code, n, starts, i), Pause(code, n, starts, i - 1), 200))
  }

  lemma {:induction false} LastEdge(from: nat, segments: seq<Segment>, times: seq<nat>)
    requires Edges(U32(from), segments, times)
    ensures LastTime(U32(from), times) == U32(from + Length(segments))
    decreases |segments|
  {
    hide U32;
    if segments != [] {
      U32Add(from, segments[0].micros);
      LastEdge(from + segments[0].micros, segments[1..], times[1..]);
    }
  }

  /** The edges of one send: its start, and the ends of all segments but the last. */
  lemma EdgesOfSend(code: nat, n: nat, start: nat)
    ensures var times := Transmission(3, code, n, 1, start);
            times != [] && times[0] == U32(start) && Edges(U32(start), Body(code, n), times[1..])
  {
    hide Transmitted, Data, Edges, Moments, U32;
    var pro := PROTOCOLS[3];
    var train := Train(pro, code, n);
    TrainIsWave(pro, code, n);
    assert Repeated(train, 0) == [];
    assert Repeated(train, 1) == train;
    MomentsAreEdges(train, true, start);
    LastIsLow(code, n);
  }

  lemma LastIsLow(code: nat, n: nat)
    ensures Ended(Train(PROTOCOLS[3], code, n)) == Body(code, n)
  {
    var sync := Transmitted(PROTOCOLS[3], PROTOCOLS[3].sync);
    assert Train(PROTOCOLS[3], code, n) == Body(code, n) + [sync[1]];
    assert !sync[1].high;
  }

  /** One send after a pause: the pause is a gap, and the code is noted. */
  lemma OneSend(h: Handler, code: nat, n: nat, end: nat, gap: nat)
    requires Sound(h) && h.lastTime == U32(end) && SEPARATION_LIMIT < gap < 0x1_0000 && n <= 32
    ensures var r := InterruptedAt(h, Transmission(3, code, n, 1, end + gap), TOLERANCE);
            var a := AfterGap(h, gap, TOLERANCE);
            && r.changes == 2 * n + 2 && Holds(r.timings, Paused(code, n, gap))
            && r.repeats == a.repeats && r.received == a.received
            && r.lastTime == U32(end + gap + Length(Body(code, n)))
  {
    var times := Transmission(3, code, n, 1, end + gap);
    hide Transmission, AfterGap, AllShort, U32, Interrupted, Body;
    EdgesOfSend(code, n, end + gap);
    LastEdge(end + gap, Body(code, n), times[1..]);
    U32Add(end, gap);
    PausedIsBody(code, n, gap);
    assert Edges(h.lastTime, Paused(code, n, gap), times);
    PausedIsShort(code, n, gap);
    GapThenShort(h, Paused(code, n, gap), times);
    InterruptedInTwoParts(h, times, [], TOLERANCE);
  }

  lemma PausedIsBody(code: nat, n: nat, gap: nat)
    ensures Paused(code, n, gap)[0].micros == gap && Paused(code, n, gap)[1..] == Body(code, n)
  {
    assert Paused(code, n, gap) == [Segment(false, gap)] + Body(code, n);
  }

  /** After the first send, whatever was before it. */
  lemma FirstSend(h: Handler, code: nat, n: nat, start: nat)
    requires Sound(h)
    ensures var r := InterruptedAt(h, Transmission(3, code, n, 1, start), TOLERANCE);
            r.lastTime == U32(start + Length(Body(code, n)))
  {
    var times := Transmission(3, code, n, 1, start);
    hide Transmission, U32, Interrupted, Body;
    EdgesOfSend(code, n, start);
    LastEdge(start, Body(code, n), times[1..]);
    InterruptedInTwoParts(h, times, [], TOLERANCE);
  }

  lemma SendsStep(h: Handler, code: nat, n: nat, starts: seq<nat>)
    requires Sound(h) && starts != []
    ensures var front := InterruptedAt(h, Sends(code, n, starts[..|starts| - 1]), TOLERANCE);
            InterruptedAt(h, Sends(code, n, starts), TOLERANCE) ==
              InterruptedAt(front, Transmission(3, code, n, 1, starts[|starts| - 1]), TOLERANCE)
  {
    hide Transmission, InterruptedAt;
    InterruptedInTwoParts(h, Sends(code, n, starts[..|starts| - 1]), Transmission(3, code, n, 1, starts[|starts| - 1]),
                          TOLERANCE);
  }

  lemma RegularFront(code: nat, n: nat, starts: seq<nat>)
    requires Regular(code, n, starts) && starts != []
    ensures Regular(code, n, starts[..|starts| - 1])
  {
    hide Length, Close;
    var front := starts[..|starts| - 1];
    assert forall i :: 1 <= i < |front| ==> Pause(code, n, front, i) == Pause(code, n, starts, i);
  }

  /** The state after some sends: the last is noted, and from the third on a gap has been counted, or the code is
      there already. */
  lemma {:induction false} SendsAreCounted(h: Handler, code: nat, n: nat, starts: seq<nat>)
    requires Sound(h) && starts != [] && Regular(code, n, starts) && 3 <= n <= 32 && code < Pow2(n)
    ensures var r := InterruptedAt(h, Sends(code, n, starts), TOLERANCE);
            var k := |starts|;
            && r.lastTime == U32(starts[k - 1] + Length(Body(code, n)))
            && (k >= 2 ==> r.changes == 2 * n + 2 && Holds(r.timings, Paused(code, n, Pause(code, n, starts, k - 1))))
            && (k >= 3 ==> r.repeats == 1 || GotPaused(r.received, code, n))
            && (k >= 4 ==> GotPaused(r.received, code, n))
    decreases |starts|
  {
    hide Transmission, Body, Length, U32, Holds, AfterGap, GotPaused, Interrupted, InterruptedAt, Sends, Paused, Sound;
    var k, front := |starts|, starts[..|starts| - 1];
    SendsStep(h, code, n, starts);
    if k == 1 {
      FirstSend(InterruptedAt(h, Sends(code, n, front), TOLERANCE), code, n, starts[0]);
    } else {
      RegularFront(code, n, starts);
      SendsAreCounted(h, code, n, front);
      var before := InterruptedAt(h, Sends(code, n, front), TOLERANCE);
      var gap := Pause(code, n, starts, k - 1);
      OneSend(before, code, n, starts[k - 2] + Length(Body(code, n)), gap);
      if k >= 3 {
        assert Pause(code, n, front, k - 2) == Pause(code, n, starts, k - 2);
        GapAfterPaused(before, code, n, Pause(code, n, front, k - 2), gap);
      }
    }
  }

  /** A code of protocol 4 that is sent at least four times over an idle line, with pauses from 4390 to 14724
      microseconds of which each is like the one before, is received, whatever the handler was doing before. */
  lemma PausedCodeIsReceived(h: Handler, code: nat, n: nat, starts: seq<nat>)
    requires Sound(h) && |starts| >= 4 && Regular(code, n, starts) && 3 <= n <= 32 && code < Pow2(n)
    ensures GotPaused(InterruptedAt(h, Sends(code, n, starts), TOLERANCE).received, code, n)
  {
    SendsAreCounted(h, code, n, starts);
  }

  lemma ThreeSends(h: Handler, code: nat, n: nat, starts: seq<nat>)
    requires Sound(h) && |starts| == 3 && Regular(code, n, starts) && 3 <= n <= 32 && code < Pow2(n)
    requires Duration(h, U32(starts[0])) > SEPARATION_LIMIT
    requires Diff(Pause(code, n, starts, 1), Duration(h, U32(starts[0]))) >= 200
    ensures var r := InterruptedAt(h, Sends(code, n, starts), TOLERANCE);
            var a := AfterGap(h, Duration(h, U32(starts[0])), TOLERANCE);
            if a.repeats == 1 then GotPaused(r.received, code, n) else r.received == a.received
  {
    hide Transmission, Body, Length, U32, Holds, AfterGap, GotPaused, Duration, Diff, Sends, InterruptedAt, Interrupted;
    ThreeInTurn(h, code, n, starts);
    assert Close(Pause(code, n, starts, 2), Pause(code, n, starts, 1), 200);
    var h1 := AfterSilence(h, code, n, starts[0]);
    TwoMoreSends(h1, code, n, starts[0] + Length(Body(code, n)), Pause(code, n, starts, 1), starts[1], starts[2]);
  }

  /** Three sends are not enough: after a silence unlike the pause they are received exactly if the handler has
      counted one gap by its end. */
  lemma ThreeSendsIff(h: Handler, code: nat, n: nat, starts: seq<nat>)
    requires Sound(h) && |starts| == 3 && Regular(code, n, starts) && 3 <= n <= 32 && code < Pow2(n)
    requires Duration(h, U32(starts[0])) > SEPARATION_LIMIT
    requires Diff(Pause(code, n, starts, 1), Duration(h, U32(starts[0]))) >= 200
    ensures var r := InterruptedAt(h, Sends(code, n, starts), TOLERANCE);
            var like := Diff(Duration(h, U32(starts[0])), h.timings[0]) < 200;
            if like == (h.repeats == 0) then GotPaused(r.received, code, n)
            else r.received == if like then TryFrom(h, TOLERANCE, 0) else h.received
  {
    hide *;
    ThreeSends(h, code, n, starts);
    GapCounts(h, Duration(h, U32(starts[0])));
  }

  lemma ThreeInTurn(h: Handler, code: nat, n: nat, starts: seq<nat>)
    requires Sound(h) && |starts| == 3
    ensures var h1 := InterruptedAt(h, Transmission(3, code, n, 1, starts[0]), TOLERANCE);
            var h2 := InterruptedAt(h1, Transmission(3, code, n, 1, starts[1]), TOLERANCE);
            InterruptedAt(h, Sends(code, n, starts), TOLERANCE) ==
              InterruptedAt(h2, Transmission(3, code, n, 1, starts[2]), TOLERANCE)
  {
    hide Transmission, Sends, Interrupted;
    var one, two := starts[..1], starts[..2];
    assert one[..0] == [] && two[..1] == one;
    NoSends(code, n);
    SendsStep(h, code, n, one);
    SendsStep(h, code, n, two);
    SendsStep(h, code, n, starts);
  }

  /** The second send after a silence counts nothing, the third counts one gap. */
  lemma TwoMoreSends(h: Handler, code: nat, n: nat, end: nat, gap: nat, second: nat, third: nat)
    requires Sound(h) && h.lastTime == U32(end) && second == end + gap && 3 <= n <= 32 && code < Pow2(n)
    requires 4390 <= gap <= 14724 && Diff(gap, h.timings[0]) >= 200
    requires var next := third - (second + Length(Body(code, n))); 4390 <= next <= 14724 && Close(next, gap, 200)
    ensures var h2 := InterruptedAt(h, Transmission(3, code, n, 1, second), TOLERANCE);
            var r := InterruptedAt(h2, Transmission(3, code, n, 1, third), TOLERANCE);
            if h.repeats == 1 then GotPaused(r.received, code, n) else r.received == h.received
  {
    hide Transmission, Body, Length, U32, Holds, AfterGap, GotPaused, Diff, InterruptedAt, Interrupted;
    hide Sound, Paused, Close, Pow2;
    var next: nat := third - (second + Length(Body(code, n)));
    OneSend(h, code, n, end, gap);
    UnlikeGap(h, gap);
    var h2 := InterruptedAt(h, Transmission(3, code, n, 1, second), TOLERANCE);
    OneSend(h2, code, n, second + Length(Body(code, n)), next);
    GapAfterPaused(h2, code, n, gap, next);
  }

  lemma NoSends(code: nat, n: nat)
    ensures Sends(code, n, []) == []
  {
  }

  lemma AfterSilence(h: Handler, code: nat, n: nat, start: nat) returns (r: Handler)
    requires Sound(h) && Duration(h, U32(start)) > SEPARATION_LIMIT && n <= 32
    ensures Sound(r) && r == InterruptedAt(h, Transmission(3, code, n, 1, start), TOLERANCE)
    ensures var a := AfterGap(h, Duration(h, U32(start)), TOLERANCE);
            && r.timings[0] == Duration(h, U32(start)) && r.repeats == a.repeats && r.received == a.received
    ensures r.lastTime == U32(start + Length(Body(code, n)))
  {
    hide Transmission, U32, Interrupted, Duration, AfterGap, AllShort;
    var times := Transmission(3, code, n, 1, start);
    r := InterruptedAt(h, times, TOLERANCE);
    FirstSend(h, code, n, start);
    EdgesOfSend(code, n, start);
    PausedIsShort(code, n, 0);
    PausedIsBody(code, n, 0);
    hide Body, Paused;
    var h' := FirstEdge(h, times);
    SilenceEnds(h, times[0]);
    ShortSegmentsAreNoted(h', Body(code, n), times[1..], TOLERANCE);
  }
}

/** The sender and the receiver on the board. */
module RcSwitch {
  import opened Words
  import opened RcSwitchSpec

  class Sender {
    var protocol: Protocol
    var repeatTransmit: nat
    var line: seq<Segment>

    constructor ()
      ensures protocol == PROTOCOLS[0] && repeatTransmit == 10 && line == []
    {
      protocol := PROTOCOLS[0];
      repeatTransmit := 10;
      line := [];
    }

    /** An unknown number selects the first protocol. */
    method SetProtocol(number: int)
      modifies this`protocol
      ensures protocol == PROTOCOLS[if 1 <= number <= |PROTOCOLS| then number - 1 else 0]
    {
      var n := number;
      if n < 1 || n > |PROTOCOLS| {
        n := 1;
      }
      protocol := PROTOCOLS[n - 1];
    }

    method Transmit(pulses: HighLow)
      modifies this`line
      ensures line == old(line) + Transmitted(protocol, pulses)
    {
      var firstLevel := !protocol.inverted;
      line := line + [Segment(firstLevel, U16(protocol.pulse * pulses.high))];
      line := line + [Segment(!firstLevel, U16(protocol.pulse * pulses.low))];
    }

    /** Sends the last `length` bits of the code, most significant first, and repeats. */
    method Send(code: nat, length: nat)
      modifies this`line
      ensures line == old(line) + Repeated(Train(protocol, code, length), repeatTransmit)
    {
      hide Transmitted, Shifted;
      for r := 0 to repeatTransmit
        invariant line == old(line) + Repeated(Train(protocol, code, length), r)
      {
        ghost var before := line;
        var i: nat := length;
        assert Shifted(code, length) >= 0 && Data(protocol, Shifted(code, length), 0) == [];
        while i > 0
          invariant 0 <= i <= length
          invariant line == before + Data(protocol, Shifted(code, i), length - i)
        {
          i := i - 1;
          ShiftedNext(code, i);
          ghost var pulses := PulsesOf(protocol, Bit(code, i));
          if Bit(code, i) != 0 {
            Transmit(protocol.one);
          } else {
            Transmit(protocol.zero);
          }
          ghost var sent := Data(protocol, Shifted(code, i) / 2, length - i - 1);
          assert line == before + (sent + Transmitted(protocol, pulses));
        }
        NothingShifted(code);
        Transmit(protocol.sync);
        assert line == before + Train(protocol, code, length);
      }
    }

    method SendTriState(word: string)
      modifies this`line
      ensures line == old(line) + Repeated(Train(protocol, TriCode(word), 2 * |word|), repeatTransmit)
    {
      var code: nat := 0;
      var length: nat := 0;
      for k := 0 to |word|
        invariant code == TriCode(word[..k]) && length == 2 * k
      {
        assert word[..k + 1][..k] == word[..k];
        code := U32(4 * code);
        match word[k] {
          case 'F' => code := code + 1;
          case '1' => code := code + 3;
          case _ =>
        }
        length := length + 2;
      }
      assert word[..|word|] == word;
      Send(code, length);
    }
  }

  lemma NothingShifted(code: nat)
    ensures Shifted(code, 0) == code
  {
  }

  class Receiver {
    const timings: array<nat>
    var changeCount: nat
    var lastTime: nat
    var repeatCount: nat
    var received: Received
    var tolerance: nat

    constructor ()
      ensures fresh(timings) && Valid() && View() == Handler(0, 0, 0, seq(MAX_CHANGES, _ => 0), Received(0, 0, 0, 0))
      ensures tolerance == TOLERANCE
    {
      timings := new nat[MAX_CHANGES](_ => 0);
      changeCount := 0;
      lastTime := 0;
      repeatCount := 0;
      received := Received(0, 0, 0, 0);
      tolerance := TOLERANCE;
      new;
      assert timings[..] == seq(MAX_CHANGES, _ => 0);
    }

    predicate Valid()
      reads this
    {
      timings.Length == MAX_CHANGES && changeCount <= MAX_CHANGES && repeatCount <= 1 &&
      (changeCount == 0 ==> repeatCount == 0)
    }

    function View(): Handler
      requires timings.Length == MAX_CHANGES
      reads this, timings
    {
      Handler(changeCount, lastTime, repeatCount, timings[..], received)
    }

    /** Tries protocol p (counted from 1) on the noted durations. */
    method ReceiveProtocol(p: nat, changes: nat) returns (ok: bool)
      requires timings.Length == MAX_CHANGES && 1 <= p <= |PROTOCOLS| && 1 <= changes <= MAX_CHANGES
      modifies this`received
      ensures var read := Decode(PROTOCOLS[p - 1], timings[..], changes, tolerance);
              && ok == read.Some?
              && received == (if read.Some? then
                                Received(read.value, (changes - 1) / 2, Delay(PROTOCOLS[p - 1], timings[..]), p)
                              else old(received))
    {
      hide BitRead, U32;
      var pro := PROTOCOLS[p - 1];
      var code: nat := 0;
      var syncLength := if pro.sync.low > pro.sync.high then pro.sync.low else pro.sync.high;
      PredefinedAreReadable(p - 1);
      var delay := timings[0] / syncLength;
      var delayTolerance := Tolerance(delay, tolerance);
      var i: nat := if pro.inverted then 2 else 1;
      while i < changes - 1
        invariant DecodeFrom(pro, timings[..], changes, delay, delayTolerance, i, code) ==
                    DecodeFrom(pro, timings[..], changes, delay, delayTolerance, FirstData(pro), 0)
        decreases changes - i
      {
        code := U32(2 * code);
        match BitRead(pro, timings[i], timings[i + 1], delay, delayTolerance) {
          case Some(bit) => code := code + bit;
          case None => return false;
        }
        i := i + 2;
      }
      if changes > 7 {
        received := Received(code, (changes - 1) / 2, delay, p);
        return true;
      }
      return false;
    }

    method HandleInterrupt(time: nat)
      requires Valid()
      modifies this`changeCount, this`lastTime, this`repeatCount, this`received, timings
      ensures Valid() && View() == Interrupted(old(View()), time, tolerance)
    {
      hide Decode, Diff, U16, U32;
      var duration := U16(U32(time - lastTime));
      if duration > SEPARATION_LIMIT {
        if Diff(duration, timings[0]) < 200 {
          repeatCount := repeatCount + 1;
          if repeatCount == 2 {
            ghost var h := old(View());
            var i := 1;
            while i <= |PROTOCOLS|
              invariant 1 <= i <= |PROTOCOLS| + 1 && timings[..] == h.timings && received == h.received
              invariant changeCount == h.changes && lastTime == h.lastTime && repeatCount == 2
              invariant TryFrom(h, tolerance, i - 1) == TryFrom(h, tolerance, 0)
            {
              var ok := ReceiveProtocol(i, changeCount);
              if ok {
                break;
              }
              i := i + 1;
            }
            assert received == TryFrom(h, tolerance, 0);
            repeatCount := 0;
          }
        }
        changeCount := 0;
      }
      if changeCount >= MAX_CHANGES {
        changeCount := 0;
        repeatCount := 0;
      }
      timings[changeCount] := duration;
      changeCount := changeCount + 1;
      lastTime := time;
    }
  }

  /** A sender with an idle line and a receiver that hears it: every change of the level is an interrupt. */
  method Carry(sender: Sender, receiver: Receiver, number: nat, code: nat, length: nat, at: nat)
    requires sender.line == [] && sender.repeatTransmit >= 4
    requires receiver.Valid() && receiver.tolerance == TOLERANCE
    requires 1 <= number <= |PROTOCOLS| && number != 4 && 3 <= length <= 32 && code < Pow2(length)
    modifies sender, receiver, receiver.timings
    ensures receiver.Valid() && Got(receiver.received, number - 1, code, length)
  {
    hide Train, Moments, Interrupted, InterruptedAt, Got, Repeated, Pow2;
    sender.SetProtocol(number);
    sender.Send(code, length);
    TransmissionIsReceived(receiver.View(), number - 1, code, length, sender.repeatTransmit, at);
    assert sender.line == Repeated(Train(PROTOCOLS[number - 1], code, length), sender.repeatTransmit);
    Hear(receiver, Moments(false, at, sender.line));
  }

  /** Every moment is an interrupt. */
  method Hear(receiver: Receiver, times: seq<nat>)
    requires receiver.Valid()
    modifies receiver, receiver.timings
    ensures receiver.Valid() && receiver.tolerance == old(receiver.tolerance)
    ensures receiver.View() == InterruptedAt(old(receiver.View()), times, receiver.tolerance)
  {
    hide Interrupted;
    ghost var h := receiver.View();
    for i := 0 to |times|
      invariant receiver.Valid() && receiver.tolerance == old(receiver.tolerance)
      invariant Sound(receiver.View())
      invariant InterruptedAt(receiver.View(), times[i..], receiver.tolerance)
             == InterruptedAt(h, times, receiver.tolerance)
    {
      assert times[i..][0] == times[i] && times[i..][1..] == times[i + 1..];
      InterruptedIsSound(receiver.View(), times[i], receiver.tolerance);
      receiver.HandleInterrupt(times[i]);
    }
  }
}
