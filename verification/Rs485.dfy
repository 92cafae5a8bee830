/**
 The RS485 transport: frames SOH, destination, source, command, length, STX, data, ETX, checksum, EOT on
 a shared line, and the receiver that finds them a byte at a time.
 */
module Rs485Spec {
  import opened Words

  const SOH: byte := 1
  const STX: byte := 2
  const ETX: byte := 3
  const EOT: byte := 4
  const ICSC_SYS_PACK: byte := 0x58
  const BROADCAST_ADDRESS: byte := 255
  const MAX_MESSAGE_LENGTH: nat := 40

  lemma U8Add(x: int, y: int)
    ensures U8(U8(x) + y) == U8(x + y)
  {
  }

  function Sum(s: seq<byte>): int {
    if s == [] then 0 else Sum(s[..|s| - 1]) + s[|s| - 1]
  }

  function HeaderSum(to: byte, from: byte, command: byte, length: byte): int {
    to as int + from as int + command as int + length as int
  }

  function Checksum(to: byte, from: byte, data: seq<byte>): byte
    requires |data| < 256
  {
    U8(HeaderSum(to, from, ICSC_SYS_PACK, |data|) + Sum(data))
  }

  function Header(to: byte, from: byte, length: byte): seq<byte> {
    [SOH, to, from, ICSC_SYS_PACK, length, STX]
  }

  /** What transportSend puts on the line. */
  function Frame(to: byte, from: byte, data: seq<byte>): seq<byte>
    requires |data| < 256
  {
    Header(to, from, |data|) + data + [ETX, Checksum(to, from, data), EOT]
  }

  /** A frame, byte by byte. */
  lemma FrameBytes(to: byte, from: byte, data: seq<byte>)
    requires |data| < 256
    ensures var total := to as int + from as int + 0x58 + |data| + Sum(data);
            Frame(to, from, data) == [1, to, from, 0x58, |data|, 2] + data + [3, total % 0x100, 4]
    ensures |Frame(to, from, data)| == |data| + 9
  {
  }

  type Window = s: seq<byte> | |s| == 6 witness [0, 0, 0, 0, 0, 0]

  datatype Receiver = Receiver(header: Window, phase: nat, pos: byte, command: byte, length: byte,
                               station: byte, sender: byte, cs: byte, calcCs: byte, data: seq<byte>,
                               packetLength: byte, packetFrom: byte, packetReceived: bool)

  /** _serialReset. */
  function Reset(r: Receiver): Receiver {
    r.(phase := 0, pos := 0, length := 0, command := 0, cs := 0, calcCs := 0)
  }

  /** The window looks like the start of a frame ... */
  predicate LooksLikeHeader(w: Window) {
    w[0] == SOH && w[5] == STX && w[1] != w[2]
  }

  /** ... that this station did not send and is meant to hear. */
  predicate ForStation(w: Window, node: byte) {
    w[2] != node && (w[1] == node || w[1] == BROADCAST_ADDRESS)
  }

  predicate Accepts(w: Window, node: byte) {
    LooksLikeHeader(w) && ForStation(w, node)
  }

  /** The next byte of data still fits into the buffer. */
  predicate InBounds(r: Receiver) {
    |r.data| == MAX_MESSAGE_LENGTH && (r.phase == 1 ==> r.pos < MAX_MESSAGE_LENGTH)
  }

  function HeaderFields(r: Receiver): Receiver {
    var w := r.header;
    r.(station := w[1], sender := w[2], command := w[3], length := w[4],
       calcCs := U8(HeaderSum(w[1], w[2], w[3], w[4])), phase := 1, pos := 0)
  }

  /** A header is in the window: its fields are read, and dropped again unless it is for this station. */
  function HeaderRead(r: Receiver, node: byte): Receiver {
    var w, read := r.header, HeaderFields(r);
    if !ForStation(w, node) then Reset(read)
    else if read.length == 0 then read.(phase := 2)
    else read
  }

  /** One byte through the reception state machine of station node. */
  function Step(r: Receiver, inch: byte, node: byte): Receiver
    requires InBounds(r)
  {
    if r.phase == 0 then
      var w: Window := r.header[1..] + [inch];
      var shifted := r.(header := w);
      if LooksLikeHeader(w) then HeaderRead(shifted, node) else shifted
    else if r.phase == 1 then
      var stored := r.(data := r.data[r.pos := inch], pos := U8(r.pos + 1),
                       calcCs := U8(r.calcCs + inch));
      if stored.pos == stored.length then stored.(phase := 2) else stored
    else if r.phase == 2 then
      if inch == ETX then r.(phase := 3) else Reset(r)
    else if r.phase == 3 then
      r.(cs := inch, phase := 4)
    else
      Reset(if inch == EOT && r.cs == r.calcCs && r.command == ICSC_SYS_PACK
            then r.(packetFrom := r.sender, packetLength := r.length, packetReceived := true)
            else r)
  }

  /** Every byte that arrives finds room. */
  predicate Fits(r: Receiver, bytes: seq<byte>, node: byte)
    decreases |bytes|
  {
    InBounds(r) && (bytes != [] ==> Fits(Step(r, bytes[0], node), bytes[1..], node))
  }

  function Feed(r: Receiver, bytes: seq<byte>, node: byte): Receiver
    requires Fits(r, bytes, node)
    decreases |bytes|
  {
    if bytes == [] then r else Feed(Step(r, bytes[0], node), bytes[1..], node)
  }

  lemma {:induction false} FeedConcat(r: Receiver, a: seq<byte>, b: seq<byte>, node: byte)
    requires Fits(r, a, node) && Fits(Feed(r, a, node), b, node)
    ensures Fits(r, a + b, node) && Feed(r, a + b, node) == Feed(Feed(r, a, node), b, node)
    decreases |a|
  {
    if a == [] {
      assert a + b == b;
    } else {
      assert (a + b)[1..] == a[1..] + b;
      FeedConcat(Step(r, a[0], node), a[1..], b, node);
    }
  }

  lemma FeedOne(r: Receiver, bytes: seq<byte>, b: byte, node: byte)
    requires Fits(r, bytes, node)
    requires var s := Feed(r, bytes, node); InBounds(s) && InBounds(Step(s, b, node))
    ensures Fits(r, bytes + [b], node) && Feed(r, bytes + [b], node) == Step(Feed(r, bytes, node), b, node)
  {
    hide Step, InBounds;
    var s := Feed(r, bytes, node);
    assert [b][1..] == [];
    assert Fits(Step(s, b, node), [], node);
    assert Fits(s, [b], node) && Feed(s, [b], node) == Step(s, b, node);
    FeedConcat(r, bytes, [b], node);
  }

  // ----- Finding the header -----

  /** The window after k bytes of a new header have been shifted in. */
  function Shifted(w: Window, h: Window, k: nat): Window
    requires k <= 6
  {
    w[k..] + h[..k]
  }

  /** No accepted header appears before the new one is complete. */
  predicate NoFalseStart(w: Window, h: Window, node: byte) {
    forall k :: 1 <= k < 6 ==> !Accepts(Shifted(w, h, k), node)
  }

  /** Searching the header leaves everything alone that a packet handed over consists of. */
  predicate SamePacket(r: Receiver, s: Receiver) {
    r.data == s.data && r.packetLength == s.packetLength && r.packetFrom == s.packetFrom
    && r.packetReceived == s.packetReceived
  }

  lemma {:induction false} Searching(r: Receiver, h: Window, k: nat, node: byte)
    requires r.phase == 0 && |r.data| == MAX_MESSAGE_LENGTH && k <= 5 && NoFalseStart(r.header, h, node)
    ensures Fits(r, h[..k], node)
    ensures var s := Feed(r, h[..k], node);
            s.phase == 0 && s.header == Shifted(r.header, h, k) && SamePacket(r, s)
  {
    if k > 0 {
      Searching(r, h, k - 1, node);
      var s := Feed(r, h[..k - 1], node);
      assert s.header[1..] + [h[k - 1]] == Shifted(r.header, h, k);
      assert h[..k] == h[..k - 1] + [h[k - 1]];
      FeedOne(r, h[..k - 1], h[k - 1], node);
    }
  }

  /** A header for this station is accepted as its last byte arrives. */
  lemma HeaderAccepted(r: Receiver, to: byte, from: byte, length: byte, node: byte)
    requires r.phase == 0 && |r.data| == MAX_MESSAGE_LENGTH
    requires NoFalseStart(r.header, Header(to, from, length), node)
    requires to != from && ForStation(Header(to, from, length), node)
    ensures Fits(r, Header(to, from, length), node)
    ensures var s := Feed(r, Header(to, from, length), node);
            && s.header == Header(to, from, length) && SamePacket(r, s)
            && s.phase == (if length == 0 then 2 else 1) && s.pos == 0 && s.length == length
            && s.command == ICSC_SYS_PACK && s.sender == from
            && s.calcCs == U8(HeaderSum(to, from, ICSC_SYS_PACK, length))
  {
    var h: Window := Header(to, from, length);
    Searching(r, h, 5, node);
    var s := Feed(r, h[..5], node);
    assert s.header[1..] + [h[5]] == h;
    assert h == h[..5] + [h[5]];
    FeedOne(r, h[..5], h[5], node);
  }

  // ----- Data and trailer -----

  /** What the receiver is after k bytes of data. */
  predicate Storing(r: Receiver, data: seq<byte>, k: nat, s: Receiver)
    requires k <= |data| <= MAX_MESSAGE_LENGTH
  {
    && s == r.(data := s.data, phase := s.phase, pos := k, calcCs := U8(r.calcCs + Sum(data[..k])))
    && s.phase == (if k == |data| then 2 else 1)
    && |s.data| == MAX_MESSAGE_LENGTH && s.data[..k] == data[..k]
  }

  /** One byte of data. */
  lemma StoredStep(s: Receiver, inch: byte, node: byte)
    requires InBounds(s) && s.phase == 1
    ensures var t := Step(s, inch, node);
            && t == s.(data := t.data, pos := s.pos + 1, calcCs := U8(s.calcCs + inch),
                       phase := if s.pos + 1 == s.length as int then 2 else 1)
            && |t.data| == MAX_MESSAGE_LENGTH && t.data[..s.pos + 1] == s.data[..s.pos] + [inch]
  {
    U8Small(s.pos + 1);
    hide U8;
  }

  lemma U8Small(x: nat)
    requires x < 0x100
    ensures U8(x) == x
  {
  }

  lemma StoreOne(r: Receiver, data: seq<byte>, k: nat, s: Receiver, node: byte)
    requires |r.data| == MAX_MESSAGE_LENGTH && k < |data| <= MAX_MESSAGE_LENGTH && r.length == |data|
    requires Storing(r, data, k, s)
    ensures InBounds(s) && Storing(r, data, k + 1, Step(s, data[k], node))
  {
    hide Step, U8;
    assert data[..k + 1] == data[..k] + [data[k]];
    U8Add(r.calcCs + Sum(data[..k]), data[k]);
    StoredStep(s, data[k], node);
  }

  lemma {:induction false} DataStored(r: Receiver, data: seq<byte>, k: nat, node: byte)
    requires |r.data| == MAX_MESSAGE_LENGTH && 0 < |data| <= MAX_MESSAGE_LENGTH && k <= |data|
    requires r.phase == 1 && r.pos == 0 && r.length == |data|
    ensures Fits(r, data[..k], node)
    ensures Storing(r, data, k, Feed(r, data[..k], node))
  {
    hide Step;
    if k == 0 {
      assert data[..0] == [];
    } else {
      DataStored(r, data, k - 1, node);
      StoreOne(r, data, k - 1, Feed(r, data[..k - 1], node), node);
      assert data[..k] == data[..k - 1] + [data[k - 1]];
      FeedOne(r, data[..k - 1], data[k - 1], node);
    }
  }

  lemma TrailerAccepted(r: Receiver, node: byte)
    requires |r.data| == MAX_MESSAGE_LENGTH && r.phase == 2 && r.command == ICSC_SYS_PACK
    ensures Fits(r, [ETX, r.calcCs, EOT], node)
    ensures var s := Feed(r, [ETX, r.calcCs, EOT], node);
            && s.phase == 0 && s.header == r.header && s.data == r.data
            && s.packetReceived && s.packetFrom == r.sender && s.packetLength == r.length
  {
    var r1 := Step(r, ETX, node);
    var r2 := Step(r1, r.calcCs, node);
    var r3 := Step(r2, EOT, node);
    assert [ETX, r.calcCs, EOT][1..] == [r.calcCs, EOT] && [r.calcCs, EOT][1..] == [EOT];
    assert Fits(r3, [], node) && Fits(r2, [EOT], node) && Fits(r1, [r.calcCs, EOT], node);
    assert Feed(r2, [EOT], node) == r3;
    assert Feed(r1, [r.calcCs, EOT], node) == r3;
  }

  /** The packet the machine has handed over. */
  predicate Holds(r: Receiver, from: byte, data: seq<byte>) {
    && r.phase == 0 && |r.data| == MAX_MESSAGE_LENGTH
    && r.packetReceived && r.packetFrom == from
    && r.packetLength == |data| <= MAX_MESSAGE_LENGTH && r.data[..|data|] == data
  }

  /** A frame for this station is delivered exactly, whatever its data bytes are. */
  lemma FrameDelivered(r: Receiver, to: byte, from: byte, data: seq<byte>, node: byte)
    requires r.phase == 0 && |r.data| == MAX_MESSAGE_LENGTH && |data| <= MAX_MESSAGE_LENGTH
    requires NoFalseStart(r.header, Header(to, from, |data|), node)
    requires to != from && ForStation(Header(to, from, |data|), node)
    ensures Fits(r, Frame(to, from, data), node)
    ensures var s := Feed(r, Frame(to, from, data), node);
            Holds(s, from, data) && s.header == Header(to, from, |data|)
  {
    hide Step, ForStation, NoFalseStart, U8;
    var head := Header(to, from, |data|);
    HeaderAccepted(r, to, from, |data|, node);
    var s := Feed(r, head, node);
    DataPhase(s, data, node);
    var t := Feed(s, data, node);
    assert data[..|data|] == data;
    U8Add(HeaderSum(to, from, ICSC_SYS_PACK, |data|), Sum(data));
    TrailerAccepted(t, node);
    FeedConcat(s, data, [ETX, t.calcCs, EOT], node);
    FeedConcat(r, head, data + [ETX, t.calcCs, EOT], node);
    assert Frame(to, from, data) == head + (data + [ETX, t.calcCs, EOT]);
  }

  lemma DataPhase(s: Receiver, data: seq<byte>, node: byte)
    requires |s.data| == MAX_MESSAGE_LENGTH && |data| <= MAX_MESSAGE_LENGTH
    requires s.phase == (if data == [] then 2 else 1) && s.pos == 0 && s.length == |data|
    ensures Fits(s, data, node) && Storing(s, data, |data|, Feed(s, data, node))
  {
    assert data[..|data|] == data;
    if data != [] {
      DataStored(s, data, |data|, node);
    }
  }

  /** A window without SOH in its last five bytes cannot start a frame early. */
  lemma QuietLine(w: Window, h: Window, node: byte)
    requires forall k :: 1 <= k < 6 ==> w[k] != SOH
    ensures NoFalseStart(w, h, node)
  {
    assert forall k :: 1 <= k < 6 ==> Shifted(w, h, k)[0] == w[k];
  }

  /** Nor can the header of an earlier frame, whatever its ids and length, when the next frame is for
      this station. */
  lemma AfterFrame(to: byte, from: byte, length: byte, to': byte, from': byte, length': byte, node: byte)
    requires ForStation(Header(to', from', length'), node)
    ensures NoFalseStart(Header(to, from, length), Header(to', from', length'), node)
  {
    var w, h := Header(to, from, length), Header(to', from', length');
    assert Shifted(w, h, 1) == [to, from, ICSC_SYS_PACK, length, STX, SOH];
    assert Shifted(w, h, 2) == [from, ICSC_SYS_PACK, length, STX, SOH, to'];
    assert Shifted(w, h, 3) == [ICSC_SYS_PACK, length, STX, SOH, to', from'];
    assert Shifted(w, h, 4) == [length, STX, SOH, to', from', ICSC_SYS_PACK];
    assert Shifted(w, h, 5) == [STX, SOH, to', from', ICSC_SYS_PACK, length'];
  }

  // ----- A stream of frames -----

  type Payload = s: seq<byte> | |s| < 256 witness []

  datatype Packet = Packet(to: byte, from: byte, data: Payload)

  /** A packet another station sends to this one or to all. */
  predicate Addressed(p: Packet, node: byte) {
    p.to != p.from && p.from != node && (p.to == node || p.to == BROADCAST_ADDRESS)
    && |p.data| <= MAX_MESSAGE_LENGTH
  }

  /** transportReceive: take the packet handed over. */
  function Taken(r: Receiver): Receiver {
    r.(packetReceived := false)
  }

  /** The receiver after each frame has been fed and its packet taken, and the packets taken. */
  function Stream(r: Receiver, packets: seq<Packet>, node: byte): seq<Packet>
    requires r.phase == 0 && |r.data| == MAX_MESSAGE_LENGTH
    requires forall i :: 0 <= i < |packets| ==> Addressed(packets[i], node)
    requires packets != [] ==> NoFalseStart(r.header, Header(packets[0].to, packets[0].from, |packets[0].data|), node)
    decreases |packets|
  {
    if packets == [] then []
    else
      var p := packets[0];
      assert Addressed(p, node);
      FrameDelivered(r, p.to, p.from, p.data, node);
      var s := Feed(r, Frame(p.to, p.from, p.data), node);
      NextFrameClear(p, packets[1..], node);
      assert s.packetLength <= MAX_MESSAGE_LENGTH;
      (if s.packetReceived then [Packet(p.to, s.packetFrom, s.data[..s.packetLength])] else [])
      + Stream(Taken(s), packets[1..], node)
  }

  lemma NextFrameClear(p: Packet, rest: seq<Packet>, node: byte)
    requires forall i :: 0 <= i < |rest| ==> Addressed(rest[i], node)
    ensures rest != [] ==>
              NoFalseStart(Header(p.to, p.from, |p.data|), Header(rest[0].to, rest[0].from, |rest[0].data|), node)
  {
    if rest != [] {
      AfterFrame(p.to, p.from, |p.data|, rest[0].to, rest[0].from, |rest[0].data|, node);
    }
  }

  /** Back-to-back frames for this station all arrive, in order and unchanged, whatever the station ids,
      lengths and data are. */
  lemma {:induction false} StreamDelivered(r: Receiver, packets: seq<Packet>, node: byte)
    requires r.phase == 0 && |r.data| == MAX_MESSAGE_LENGTH
    requires forall i :: 0 <= i < |packets| ==> Addressed(packets[i], node)
    requires packets != [] ==> NoFalseStart(r.header, Header(packets[0].to, packets[0].from, |packets[0].data|), node)
    ensures Stream(r, packets, node) == packets
    decreases |packets|
  {
    if packets != [] {
      var p := packets[0];
      assert Addressed(p, node);
      FrameDelivered(r, p.to, p.from, p.data, node);
      NextFrameClear(p, packets[1..], node);
      var s := Feed(r, Frame(p.to, p.from, p.data), node);
      StreamDelivered(Taken(s), packets[1..], node);
      assert packets == [p] + packets[1..];
    }
  }

  /** The window k bytes on. */
  function WindowAt(w: Window, bytes: seq<byte>, k: nat): Window
    requires k <= |bytes|
  {
    (w + bytes)[k..k + 6]
  }

  /** Bytes in which no window is accepted are passed over: the machine stays idle and hands over nothing. */
  lemma {:induction false} ForeignBytesSkipped(r: Receiver, bytes: seq<byte>, node: byte)
    requires r.phase == 0 && |r.data| == MAX_MESSAGE_LENGTH
    requires forall k :: 1 <= k <= |bytes| ==> !Accepts(WindowAt(r.header, bytes, k), node)
    ensures Fits(r, bytes, node)
    ensures var s := Feed(r, bytes, node);
            s.phase == 0 && SamePacket(r, s) && s.header == WindowAt(r.header, bytes, |bytes|)
    decreases |bytes|
  {
    if bytes != [] {
      var s := Step(r, bytes[0], node);
      assert r.header[1..] + [bytes[0]] == WindowAt(r.header, bytes, 1);
      forall k | 0 <= k <= |bytes| - 1
        ensures WindowAt(s.header, bytes[1..], k) == WindowAt(r.header, bytes, k + 1)
      {
        assert s.header + bytes[1..] == (r.header + bytes)[1..];
      }
      ForeignBytesSkipped(s, bytes[1..], node);
    }
  }

  // ----- Nothing but whole frames is handed over -----

  /** In the middle of a frame: its header is in the window, and b are the bytes since. */
  predicate InFrame(r: Receiver, b: seq<byte>, node: byte) {
    var length: nat := r.header[4];
    && Accepts(r.header, node) && 1 <= r.phase <= 4
    && |b| == (if r.phase == 1 then r.pos else length + r.phase - 2)
    && |r.data| == MAX_MESSAGE_LENGTH
    && (if r.phase == 1 then r.pos < length && r.pos <= MAX_MESSAGE_LENGTH else length <= MAX_MESSAGE_LENGTH)
    && r.length == length && r.sender == r.header[2] && r.command == r.header[3]
    && var got := if |b| < length then b else b[..length];
       && r.data[..|got|] == got
       && r.calcCs == U8(HeaderSum(r.header[1], r.header[2], r.header[3], r.header[4]) + Sum(got))
       && (r.phase >= 3 ==> b[length] == ETX) && (r.phase == 4 ==> b[length + 1] == r.cs)
  }

  /** The frame whose header is in the window is complete with the bytes since, and is what has been handed over. */
  predicate WholeFrame(r: Receiver, b: seq<byte>, node: byte) {
    var length: nat := r.packetLength;
    && ForStation(r.header, node) && length <= |b| && length <= MAX_MESSAGE_LENGTH == |r.data|
    && r.header + b == Frame(r.header[1], r.packetFrom, r.data[..length])
  }

  lemma HeaderStarts(r: Receiver, inch: byte, node: byte)
    requires InBounds(r) && r.phase == 0
    ensures var s := Step(r, inch, node);
            && SamePacket(r, s) && s.header == r.header[1..] + [inch]
            && (s.phase == 0 || InFrame(s, [], node))
  {
  }

  /** Every further byte goes on with the frame, ends it without anything, or completes it. */
  lemma FrameGoesOn(r: Receiver, b: seq<byte>, inch: byte, node: byte)
    requires InBounds(r) && InFrame(r, b, node)
    ensures var s := Step(r, inch, node);
            && s.header == r.header
            && (s.phase == 0 || InFrame(s, b + [inch], node))
            && (s.packetReceived != r.packetReceived ==> s.packetReceived)
            && (s.packetReceived == r.packetReceived && !r.packetReceived ==> SameHandover(r, s))
            && (s.packetReceived && !r.packetReceived ==> s.phase == 0 && WholeFrame(s, b + [inch], node))
  {
    if r.phase == 1 {
      DataGoesOn(r, b, inch, node);
    } else if r.phase == 4 {
      FrameEnds(r, b, inch, node);
    } else {
      TrailerGoesOn(r, b, inch, node);
    }
  }

  predicate SameHandover(r: Receiver, s: Receiver) {
    r.packetLength == s.packetLength && r.packetFrom == s.packetFrom
  }

  lemma DataGoesOn(r: Receiver, b: seq<byte>, inch: byte, node: byte)
    requires InBounds(r) && InFrame(r, b, node) && r.phase == 1
    ensures var s := Step(r, inch, node);
            && s.header == r.header && InFrame(s, b + [inch], node)
            && s.packetReceived == r.packetReceived && SameHandover(r, s)
  {
    hide Accepts, HeaderSum, U8, Step;
    assert (b + [inch])[..|b|] == b;
    U8Add(HeaderSum(r.header[1], r.header[2], r.header[3], r.header[4]) + Sum(b), inch);
    StoredStep(r, inch, node);
    assert (b + [inch])[..|b| + 1] == b + [inch];
  }

  lemma TrailerGoesOn(r: Receiver, b: seq<byte>, inch: byte, node: byte)
    requires InBounds(r) && InFrame(r, b, node) && 2 <= r.phase <= 3
    ensures var s := Step(r, inch, node);
            && s.header == r.header && (s.phase == 0 || InFrame(s, b + [inch], node))
            && s.packetReceived == r.packetReceived && SameHandover(r, s)
  {
    hide Accepts, HeaderSum, U8;
    var length: nat := r.header[4];
    assert b[..length] == (b + [inch])[..length];
  }

  lemma FrameEnds(r: Receiver, b: seq<byte>, inch: byte, node: byte)
    requires InBounds(r) && InFrame(r, b, node) && r.phase == 4
    ensures var s := Step(r, inch, node);
            && s.header == r.header && s.phase == 0
            && (if inch == EOT && b[|b| - 1] == U8(HeaderSum(r.header[1], r.header[2], r.header[3], r.header[4])
                                                   + Sum(b[..|b| - 2])) && r.header[3] == ICSC_SYS_PACK
                then s.packetReceived && WholeFrame(s, b + [inch], node)
                else s.packetReceived == r.packetReceived && SameHandover(r, s))
  {
    hide HeaderSum, U8;
    var length: nat := r.header[4];
    assert |b| == length + 2 && b == b[..length] + [ETX, r.cs];
    var s := Step(r, inch, node);
    if s.packetReceived && inch == EOT && r.cs == r.calcCs && r.command == ICSC_SYS_PACK {
      assert r.header == Header(r.header[1], r.header[2], length);
      assert s.data[..length] == b[..length];
      assert b + [inch] == b[..length] + [ETX, r.calcCs, EOT];
    }
  }

  /** The last k bytes are those since the header. */
  predicate OnTheWay(r: Receiver, bytes: seq<byte>, k: nat, node: byte) {
    k <= |bytes| && InFrame(r, bytes[|bytes| - k..], node)
  }

  predicate WholeAtEnd(r: Receiver, bytes: seq<byte>, k: nat, node: byte) {
    k <= |bytes| && WholeFrame(r, bytes[|bytes| - k..], node)
  }

  lemma LastStep(r: Receiver, bytes: seq<byte>, node: byte)
    requires Fits(r, bytes, node) && bytes != []
    ensures var front, last := bytes[..|bytes| - 1], bytes[|bytes| - 1];
            && Fits(r, front, node) && InBounds(Feed(r, front, node))
            && Feed(r, bytes, node) == Step(Feed(r, front, node), last, node)
  {
    hide Step, InBounds;
    var front, last := bytes[..|bytes| - 1], bytes[|bytes| - 1];
    assert bytes == front + [last];
    FitsInParts(r, front, [last], node);
    FeedConcat(r, front, [last], node);
    var t := Feed(r, front, node);
    assert [last][1..] == [] && Fits(t, [last], node);
    assert Feed(t, [last], node) == Step(t, last, node);
  }

  lemma ReceivedStays(r: Receiver, inch: byte, node: byte)
    requires InBounds(r) && r.packetReceived
    ensures Step(r, inch, node).packetReceived
  {
  }

  ghost predicate Midway(r: Receiver, bytes: seq<byte>, node: byte) {
    |r.data| == MAX_MESSAGE_LENGTH && (r.phase == 0 || exists k: nat :: OnTheWay(r, bytes, k, node))
  }

  lemma NextByte(t: Receiver, front: seq<byte>, last: byte, node: byte)
    requires InBounds(t) && Midway(t, front, node) && !t.packetReceived
    ensures var s := Step(t, last, node);
            && |s.data| == MAX_MESSAGE_LENGTH
            && if s.packetReceived then exists k: nat :: WholeAtEnd(s, front + [last], k, node)
               else SameHandover(t, s) && Midway(s, front + [last], node)
  {
    hide Step, InFrame, WholeFrame, InBounds;
    var bytes, s := front + [last], Step(t, last, node);
    DataIsKept(t, last, node);
    if t.phase == 0 {
      HeaderStarts(t, last, node);
      assert bytes[|bytes| - 0..] == [];
      assert s.phase == 0 || OnTheWay(s, bytes, 0, node);
    } else {
      var k: nat :| OnTheWay(t, front, k, node);
      FrameGoesOn(t, front[|front| - k..], last, node);
      assert bytes[|bytes| - (k + 1)..] == front[|front| - k..] + [last];
      assert s.packetReceived ==> WholeAtEnd(s, bytes, k + 1, node);
      assert s.phase == 0 || OnTheWay(s, bytes, k + 1, node);
    }
  }

  lemma DataIsKept(t: Receiver, last: byte, node: byte)
    requires InBounds(t)
    ensures |Step(t, last, node).data| == MAX_MESSAGE_LENGTH
  {
  }

  /** As long as nothing is handed over the machine is idle or in the middle of a frame. */
  lemma {:induction false} IdleOrOnTheWay(r: Receiver, bytes: seq<byte>, node: byte)
    requires r.phase == 0 && |r.data| == MAX_MESSAGE_LENGTH && Fits(r, bytes, node)
    requires !Feed(r, bytes, node).packetReceived
    ensures Midway(Feed(r, bytes, node), bytes, node) && SameHandover(r, Feed(r, bytes, node))
    decreases |bytes|
  {
    if bytes == [] {
      StateStays(r, node);
    } else {
      hide Step, Feed, Fits, Midway, InBounds;
      LastStep(r, bytes, node);
      var front, last := bytes[..|bytes| - 1], bytes[|bytes| - 1];
      var t := Feed(r, front, node);
      if t.packetReceived { ReceivedStays(t, last, node); }
      IdleOrOnTheWay(r, front, node);
      NextByte(t, front, last, node);
      assert bytes == front + [last];
    }
  }

  lemma StateStays(r: Receiver, node: byte)
    requires Fits(r, [], node)
    ensures Feed(r, [], node) == r
  {
  }

  /** Whatever comes over the line, nothing but a whole frame for this station is handed over: when a packet is, the
      header in the window and the bytes since it are the frame of exactly its sender and its data, checksum and
      all; and until then sender and length stay as they were. */
  lemma OnlyFramesAreReceived(r: Receiver, bytes: seq<byte>, node: byte)
    requires r.phase == 0 && |r.data| == MAX_MESSAGE_LENGTH && bytes != [] && Fits(r, bytes, node)
    requires Fits(r, bytes[..|bytes| - 1], node) && !Feed(r, bytes[..|bytes| - 1], node).packetReceived
    ensures var s := Feed(r, bytes, node);
            if s.packetReceived then exists k: nat :: WholeAtEnd(s, bytes, k, node) else SameHandover(r, s)
  {
    hide Step, Feed, Fits, Midway, InBounds, WholeAtEnd;
    LastStep(r, bytes, node);
    var front, last := bytes[..|bytes| - 1], bytes[|bytes| - 1];
    IdleOrOnTheWay(r, front, node);
    NextByte(Feed(r, front, node), front, last, node);
    assert bytes == front + [last];
  }

  /** In particular a frame whose checksum has been changed on the line brings nothing, whatever it was changed to. */
  lemma WrongChecksumIsDropped(r: Receiver, to: byte, from: byte, data: seq<byte>, cs: byte, node: byte)
    requires r.phase == 0 && |r.data| == MAX_MESSAGE_LENGTH && |data| <= MAX_MESSAGE_LENGTH
    requires NoFalseStart(r.header, Header(to, from, |data|), node)
    requires to != from && ForStation(Header(to, from, |data|), node) && cs != Checksum(to, from, data)
    ensures var bytes := Header(to, from, |data|) + data + [ETX, cs, EOT];
            && Fits(r, bytes, node)
            && var s := Feed(r, bytes, node);
               s.phase == 0 && s.packetReceived == r.packetReceived && SameHandover(r, s)
  {
    hide Step, ForStation, NoFalseStart, U8;
    var head := Header(to, from, |data|);
    HeaderAccepted(r, to, from, |data|, node);
    var s := Feed(r, head, node);
    DataPhase(s, data, node);
    var t := Feed(s, data, node);
    assert data[..|data|] == data;
    U8Add(HeaderSum(to, from, ICSC_SYS_PACK, |data|), Sum(data));
    TrailerRefused(t, cs, node);
    FeedConcat(s, data, [ETX, cs, EOT], node);
    FeedConcat(r, head, data + [ETX, cs, EOT], node);
    assert head + data + [ETX, cs, EOT] == head + (data + [ETX, cs, EOT]);
  }

  /** The checksum tells a change of any one byte of the data. */
  lemma ChecksumDetectsByte(to: byte, from: byte, data: seq<byte>, k: nat, b: byte)
    requires |data| < 256 && k < |data| && b != data[k]
    ensures Checksum(to, from, data[k := b]) != Checksum(to, from, data)
  {
    SumOfChange(data, k, b);
    var h := HeaderSum(to, from, ICSC_SYS_PACK, |data|) + Sum(data);
    U8Differs(h, b as int - data[k] as int);
  }

  lemma U8Differs(x: int, d: int)
    requires -256 < d < 256 && d != 0
    ensures U8(x + d) != U8(x)
  {
  }

  lemma {:induction false} SumOfChange(data: seq<byte>, k: nat, b: byte)
    requires k < |data|
    ensures Sum(data[k := b]) == Sum(data) + b as int - data[k] as int
    decreases |data|
  {
    var l := |data| - 1;
    if k == l {
      assert data[k := b][..l] == data[..l];
    } else {
      assert data[k := b][..l] == data[..l][k := b];
      SumOfChange(data[..l], k, b);
    }
  }

  /** So a frame in which one byte of the data has been damaged brings nothing. */
  lemma DamagedByteIsDropped(r: Receiver, to: byte, from: byte, data: seq<byte>, k: nat, b: byte, node: byte)
    requires r.phase == 0 && |r.data| == MAX_MESSAGE_LENGTH && |data| <= MAX_MESSAGE_LENGTH
    requires NoFalseStart(r.header, Header(to, from, |data|), node)
    requires to != from && ForStation(Header(to, from, |data|), node) && k < |data| && b != data[k]
    ensures var bytes := Frame(to, from, data)[6 + k := b];
            && Fits(r, bytes, node)
            && var s := Feed(r, bytes, node);
               s.phase == 0 && s.packetReceived == r.packetReceived && SameHandover(r, s)
  {
    hide Step, ForStation, NoFalseStart, U8, Feed, Fits;
    ChecksumDetectsByte(to, from, data, k, b);
    WrongChecksumIsDropped(r, to, from, data[k := b], Checksum(to, from, data), node);
    assert Frame(to, from, data)[6 + k := b]
        == Header(to, from, |data|) + data[k := b] + [ETX, Checksum(to, from, data), EOT];
  }

  lemma TrailerRefused(r: Receiver, cs: byte, node: byte)
    requires |r.data| == MAX_MESSAGE_LENGTH && r.phase == 2 && cs != r.calcCs
    ensures Fits(r, [ETX, cs, EOT], node)
    ensures var s := Feed(r, [ETX, cs, EOT], node);
            s.phase == 0 && s.packetReceived == r.packetReceived && SameHandover(r, s)
  {
    var r1 := Step(r, ETX, node);
    var r2 := Step(r1, cs, node);
    var r3 := Step(r2, EOT, node);
    assert [ETX, cs, EOT][1..] == [cs, EOT] && [cs, EOT][1..] == [EOT];
    assert Fits(r3, [], node) && Fits(r2, [EOT], node) && Fits(r1, [cs, EOT], node);
    assert Feed(r2, [EOT], node) == r3;
    assert Feed(r1, [cs, EOT], node) == r3;
  }

  // ----- A line that other stations share -----

  function FrameOf(p: Packet): seq<byte> {
    Frame(p.to, p.from, p.data)
  }

  function HeaderOf(p: Packet): Window {
    Header(p.to, p.from, |p.data|)
  }

  /** No window on the way through the bytes is accepted. */
  predicate PassedOver(w: Window, bytes: seq<byte>, node: byte) {
    forall k :: 1 <= k <= |bytes| ==> !Accepts(WindowAt(w, bytes, k), node)
  }

  /** Frames for this station and others, in any order: none of this station's starts early, and the others' bytes
      hold no header for it. The window is left with the header of the former and the end of the latter. */
  predicate Clear(w: Window, packets: seq<Packet>, node: byte)
    decreases |packets|
  {
    packets != [] ==>
      var p := packets[0];
      if Addressed(p, node) then NoFalseStart(w, HeaderOf(p), node) && Clear(HeaderOf(p), packets[1..], node)
      else
        PassedOver(w, FrameOf(p), node) && Clear(WindowAt(w, FrameOf(p), |FrameOf(p)|), packets[1..], node)
  }

  /** The packets for this station. */
  function Mine(packets: seq<Packet>, node: byte): seq<Packet> {
    if packets == [] then []
    else (if Addressed(packets[0], node) then [packets[0]] else []) + Mine(packets[1..], node)
  }

  predicate Idle(r: Receiver) {
    r.phase == 0 && |r.data| == MAX_MESSAGE_LENGTH && !r.packetReceived
  }

  /** One frame on the shared line. */
  lemma OneFrame(r: Receiver, p: Packet, rest: seq<Packet>, node: byte)
    requires Idle(r) && Clear(r.header, [p] + rest, node)
    ensures Fits(r, FrameOf(p), node)
    ensures var s := Feed(r, FrameOf(p), node);
            && Idle(Taken(s)) && Clear(s.header, rest, node)
            && (if Addressed(p, node) then Holds(s, p.from, p.data) else !s.packetReceived)
  {
    hide Step, NoFalseStart, Accepts;
    assert ([p] + rest)[1..] == rest;
    if Addressed(p, node) {
      FrameDelivered(r, p.to, p.from, p.data, node);
    } else {
      ForeignBytesSkipped(r, FrameOf(p), node);
    }
  }

  /** The packets taken from the shared line, each after its frame has been fed. */
  function Shared(r: Receiver, packets: seq<Packet>, node: byte): seq<Packet>
    requires Idle(r) && Clear(r.header, packets, node)
    decreases |packets|
  {
    if packets == [] then []
    else
      var p := packets[0];
      assert packets == [p] + packets[1..];
      OneFrame(r, p, packets[1..], node);
      var s := Feed(r, FrameOf(p), node);
      (if s.packetReceived && s.packetLength <= |s.data|
       then [Packet(p.to, s.packetFrom, s.data[..s.packetLength])] else [])
      + Shared(Taken(s), packets[1..], node)
  }

  /** Of all frames on the line, exactly those for this station arrive, in order and unchanged. */
  lemma {:induction false} SharedDelivered(r: Receiver, packets: seq<Packet>, node: byte)
    requires Idle(r) && Clear(r.header, packets, node)
    ensures Shared(r, packets, node) == Mine(packets, node)
    decreases |packets|
  {
    hide Clear, Step, Addressed;
    if packets != [] {
      var p := packets[0];
      assert packets == [p] + packets[1..];
      OneFrame(r, p, packets[1..], node);
      SharedDelivered(Taken(Feed(r, FrameOf(p), node)), packets[1..], node);
    }
  }

  /** No byte behind the first is SOH. */
  predicate QuietBytes(bytes: seq<byte>) {
    forall k :: 1 <= k < |bytes| ==> bytes[k] != SOH
  }

  /** The frames have no SOH but their first byte; for this station's own it is enough that the header has none. */
  predicate Quiet(packets: seq<Packet>, node: byte) {
    forall i :: 0 <= i < |packets| ==>
      QuietBytes(if Addressed(packets[i], node) then HeaderOf(packets[i]) else FrameOf(packets[i]))
  }

  /** What is not for this station: its own frames, frames to itself, and those to other stations. */
  predicate Elsewhere(p: Packet, node: byte) {
    p.to == p.from || p.from == node || (p.to != node && p.to != BROADCAST_ADDRESS)
  }

  lemma QuietFrameIsPassedOver(w: Window, p: Packet, node: byte)
    requires QuietBytes(w) && QuietBytes(FrameOf(p)) && Elsewhere(p, node)
    ensures PassedOver(w, FrameOf(p), node) && QuietBytes(WindowAt(w, FrameOf(p), |FrameOf(p)|))
  {
    hide U8;
    var bytes := FrameOf(p);
    forall k | 1 <= k <= |bytes|
      ensures !Accepts(WindowAt(w, bytes, k), node)
    {
      var v := WindowAt(w, bytes, k);
      assert v[0] == (w + bytes)[k];
      if k == 6 { assert v == HeaderOf(p); }
    }
  }

  /** On a line where SOH starts frames and nothing else, every frame for this station arrives. */
  lemma {:induction false} QuietIsClear(w: Window, packets: seq<Packet>, node: byte)
    requires QuietBytes(w) && Quiet(packets, node)
    requires forall i :: 0 <= i < |packets| ==> Addressed(packets[i], node) || Elsewhere(packets[i], node)
    ensures Clear(w, packets, node)
    decreases |packets|
  {
    if packets != [] {
      hide Accepts, NoFalseStart, PassedOver, QuietBytes, FrameOf, Elsewhere, Addressed;
      var p := packets[0];
      if Addressed(p, node) {
        QuietWindow(w, HeaderOf(p), node);
        QuietIsClear(HeaderOf(p), packets[1..], node);
      } else {
        QuietFrameIsPassedOver(w, p, node);
        QuietIsClear(WindowAt(w, FrameOf(p), |FrameOf(p)|), packets[1..], node);
      }
    }
  }

  lemma QuietWindow(w: Window, h: Window, node: byte)
    requires QuietBytes(w)
    ensures NoFalseStart(w, h, node)
  {
    QuietLine(w, h, node);
  }

  // ----- Exactly when a frame arrives -----

  /** One more byte, EOT, hands over the given data. */
  predicate Completing(r: Receiver, from: byte, data: seq<byte>) {
    && r.phase == 4 && r.command == ICSC_SYS_PACK && r.cs == r.calcCs && r.sender == from
    && r.length == |data| <= |r.data| && r.data[..|data|] == data
  }

  /** The last of the bytes hands over the given data. */
  predicate HandsOver(r: Receiver, bytes: seq<byte>, from: byte, data: seq<byte>, node: byte)
    requires bytes != [] && Fits(r, bytes, node)
    decreases |bytes|
  {
    if |bytes| == 1 then bytes[0] == EOT && Completing(r, from, data)
    else HandsOver(Step(r, bytes[0], node), bytes[1..], from, data, node)
  }

  lemma {:induction false} FitsInParts(r: Receiver, a: seq<byte>, b: seq<byte>, node: byte)
    requires Fits(r, a + b, node) && b != []
    ensures Fits(r, a, node) && Fits(Feed(r, a, node), b, node)
    ensures forall from, data ::
              HandsOver(r, a + b, from, data, node) == HandsOver(Feed(r, a, node), b, from, data, node)
    decreases |a|
  {
    hide Step, Completing;
    if a == [] {
      assert a + b == b;
    } else {
      assert (a + b)[1..] == a[1..] + b;
      FitsInParts(Step(r, a[0], node), a[1..], b, node);
    }
  }

  /** How many more bytes a frame whose header is in needs. */
  function Need(r: Receiver): int {
    if r.phase == 1 then r.length as int - r.pos as int + 3 else 5 - r.phase
  }

  /** With `left` more bytes to come the receiver cannot complete a frame of n data bytes: it is looking for
      a header too late, or is busy with another frame, or with one that will not end in time. */
  predicate TooLate(r: Receiver, left: nat, n: nat) {
    && left <= n + 3 && r.phase <= 4 && (r.phase == 1 ==> r.pos < r.length)
    && (r.phase > 0 ==> r.command != ICSC_SYS_PACK || r.length < n || Need(r) > left)
  }

  lemma StaysTooLate(r: Receiver, left: nat, n: nat, b: byte, node: byte)
    requires InBounds(r) && TooLate(r, left, n) && left > 0
    ensures TooLate(Step(r, b, node), left - 1, n)
  {
  }

  lemma {:induction false} NothingTooLate(r: Receiver, bytes: seq<byte>, from: byte, data: seq<byte>, node: byte)
    requires bytes != [] && Fits(r, bytes, node) && TooLate(r, |bytes|, |data|)
    ensures !HandsOver(r, bytes, from, data, node)
    decreases |bytes|
  {
    if |bytes| > 1 {
      hide Step;
      StaysTooLate(r, |bytes|, |data|, bytes[0], node);
      NothingTooLate(Step(r, bytes[0], node), bytes[1..], from, data, node);
    }
  }

  /** One byte while idle: the window moves on, and a header that is accepted is read. */
  lemma IdleStep(r: Receiver, b: byte, node: byte)
    requires r.phase == 0 && |r.data| == MAX_MESSAGE_LENGTH
    ensures var s := Step(r, b, node);
            && s.header == r.header[1..] + [b] && |s.data| == MAX_MESSAGE_LENGTH
            && if Accepts(s.header, node) then
                 && s.phase == (if s.length == 0 then 2 else 1) && s.pos == 0
                 && s.length == s.header[4] && s.command == s.header[3]
               else s.phase == 0
  {
  }

  /** A false start at the second byte reads a frame of one byte, which fails. */
  lemma StartAtSecond(w: Window, r: Receiver, to: byte, from: byte, n: byte, node: byte)
    requires |r.data| == MAX_MESSAGE_LENGTH && r.header == [w[2], w[3], w[4], w[5], SOH, to] && to == STX
    requires r.phase == 1 && r.pos == 0 && r.length == SOH
    requires Fits(r, [from, ICSC_SYS_PACK, n, STX], node)
    ensures TooLate(Feed(r, [from, ICSC_SYS_PACK, n, STX], node), n + 3, n)
  {
    var s3 := Step(r, from, node);
    var s4 := Step(s3, ICSC_SYS_PACK, node);
    assert s4.phase == 0 && s4.header == r.header;
    FourSteps(r, from, ICSC_SYS_PACK, n, STX, node);
    hide Step, Accepts;
    IdleStep(s4, n, node);
    var s5 := Step(s4, n, node);
    assert s5.header == [w[3], w[4], w[5], SOH, to, n];
    if s5.phase == 0 {
      IdleStep(s5, STX, node);
      assert Step(s5, STX, node).header == [w[4], w[5], SOH, to, n, STX];
    } else {
      StoreStep(s5, STX, node);
    }
  }

  lemma StoreStep(r: Receiver, b: byte, node: byte)
    requires InBounds(r) && r.phase == 1 && r.pos < r.length
    ensures var s := Step(r, b, node);
            && s.phase == (if r.pos + 1 == r.length as int then 2 else 1) && s.pos == r.pos + 1
            && s.length == r.length && s.command == r.command && s.header == r.header && |s.data| == |r.data|
  {
  }

  lemma FourSteps(r: Receiver, a: byte, b: byte, c: byte, d: byte, node: byte)
    requires Fits(r, [a, b, c, d], node)
    ensures InBounds(r) && InBounds(Step(r, a, node)) && InBounds(Step(Step(r, a, node), b, node))
    ensures InBounds(Step(Step(Step(r, a, node), b, node), c, node))
    ensures Feed(r, [a, b, c, d], node) == Step(Step(Step(Step(r, a, node), b, node), c, node), d, node)
  {
    hide Step;
    var s1 := Step(r, a, node);
    assert [a, b, c, d][1..] == [b, c, d] && [b, c, d][1..] == [c, d] && [c, d][1..] == [d] && [d][1..] == [];
    assert Fits(s1, [b, c, d], node) && Fits(Step(s1, b, node), [c, d], node);
    assert Feed(r, [a, b, c, d], node) == Feed(s1, [b, c, d], node);
    assert Feed(Step(s1, b, node), [c, d], node) == Feed(Step(Step(s1, b, node), c, node), [d], node);
  }

  lemma ThreeSteps(r: Receiver, a: byte, b: byte, c: byte, node: byte)
    requires Fits(r, [a, b, c], node)
    ensures InBounds(r) && InBounds(Step(r, a, node)) && InBounds(Step(Step(r, a, node), b, node))
    ensures Feed(r, [a, b, c], node) == Step(Step(Step(r, a, node), b, node), c, node)
  {
    hide Step;
    var s1 := Step(r, a, node);
    assert [a, b, c][1..] == [b, c] && [b, c][1..] == [c] && [c][1..] == [];
    assert Fits(s1, [b, c], node);
    assert Feed(r, [a, b, c], node) == Feed(s1, [b, c], node);
    assert Feed(s1, [b, c], node) == Feed(Step(s1, b, node), [c], node);
  }

  /** A false start at the third byte reads a frame whose command is SOH, and so is every later one. */
  lemma StartAtThird(w: Window, r: Receiver, to: byte, from: byte, n: byte, node: byte)
    requires |r.data| == MAX_MESSAGE_LENGTH && r.header == [w[3], w[4], w[5], SOH, to, from] && from == STX
    requires r.phase == (if to == 0 then 2 else 1) && r.pos == 0 && r.length == to && r.command == SOH
    requires Fits(r, [ICSC_SYS_PACK, n, STX], node)
    ensures TooLate(Feed(r, [ICSC_SYS_PACK, n, STX], node), n + 3, n)
  {
    ThreeSteps(r, ICSC_SYS_PACK, n, STX, node);
    var s4 := Step(r, ICSC_SYS_PACK, node);
    if to == 0 {
      assert s4.phase == 0 && s4.header == r.header && |s4.data| == MAX_MESSAGE_LENGTH;
      hide Step, Accepts;
      IdleStep(s4, n, node);
      var s5 := Step(s4, n, node);
      assert s5.header == [w[4], w[5], SOH, to, from, n];
      if s5.phase == 0 {
        IdleStep(s5, STX, node);
        assert Step(s5, STX, node).header == [w[5], SOH, to, from, n, STX];
      } else {
        StoreStep(s5, STX, node);
      }
    } else {
      StoreStep(r, ICSC_SYS_PACK, node);
      var s5 := Step(s4, n, node);
      if to == 1 {
        assert s5.phase == 3 || (s5.phase == 0 && s5.header == r.header);
        if s5.phase == 0 {
          IdleStep(s5, STX, node);
          assert Step(s5, STX, node).header == [w[4], w[5], SOH, to, from, STX];
        }
      } else {
        StoreStep(s4, n, node);
      }
    }
  }

  /** A false start at the fifth byte asks for more data than the frame has. */
  lemma StartAtFifth(r: Receiver, n: byte, node: byte)
    requires |r.data| == MAX_MESSAGE_LENGTH && n == STX
    requires r.phase == 1 && r.pos == 0 && r.length == ICSC_SYS_PACK
    requires Fits(r, [STX], node)
    ensures TooLate(Feed(r, [STX], node), n + 3, n)
  {
    assert [STX][1..] == [];
    StoreStep(r, STX, node);
    hide Step;
    assert Feed(r, [STX], node) == Step(r, STX, node);
  }

  /** The windows that a header shifts through. */
  lemma Windows(w: Window, to: byte, from: byte, n: byte)
    ensures var h := Header(to, from, n);
            && Shifted(w, h, 1) == [w[1], w[2], w[3], w[4], w[5], SOH]
            && Shifted(w, h, 2) == [w[2], w[3], w[4], w[5], SOH, to]
            && Shifted(w, h, 3) == [w[3], w[4], w[5], SOH, to, from]
            && Shifted(w, h, 4) == [w[4], w[5], SOH, to, from, ICSC_SYS_PACK]
            && Shifted(w, h, 5) == [w[5], SOH, to, from, ICSC_SYS_PACK, n]
  {
  }

  lemma FirstFalseStart(w: Window, h: Window, node: byte) returns (k: nat)
    requires !NoFalseStart(w, h, node)
    ensures 1 <= k < 6 && Accepts(Shifted(w, h, k), node) && forall j :: 1 <= j < k ==> !Accepts(Shifted(w, h, j), node)
  {
    hide Accepts;
    k := 1;
    while !Accepts(Shifted(w, h, k), node)
      invariant 1 <= k < 6 && forall j :: 1 <= j < k ==> !Accepts(Shifted(w, h, j), node)
      decreases 6 - k
    {
      k := k + 1;
    }
  }

  /** Up to the first false start the receiver is idle; there it reads what it takes for a header. */
  lemma {:induction false} UpToFalseStart(r: Receiver, h: Window, k: nat, node: byte)
    requires r.phase == 0 && |r.data| == MAX_MESSAGE_LENGTH && 1 <= k < 6
    requires forall j :: 1 <= j < k ==> !Accepts(Shifted(r.header, h, j), node)
    ensures Fits(r, h[..k], node)
    ensures var s := Feed(r, h[..k], node);
            && s.header == Shifted(r.header, h, k) && |s.data| == MAX_MESSAGE_LENGTH
            && if Accepts(s.header, node) then
                 && s.phase == (if s.length == 0 then 2 else 1) && s.pos == 0
                 && s.length == s.header[4] && s.command == s.header[3]
               else s.phase == 0
  {
    hide Step, Accepts;
    var s := r;
    if k > 1 {
      UpToFalseStart(r, h, k - 1, node);
      s := Feed(r, h[..k - 1], node);
    } else {
      assert h[..0] == [];
    }
    assert s == Feed(r, h[..k - 1], node);
    IdleStep(s, h[k - 1], node);
    assert s.header == Shifted(r.header, h, k - 1);
    assert s.header[1..] + [h[k - 1]] == Shifted(r.header, h, k);
    assert h[..k] == h[..k - 1] + [h[k - 1]];
    assert InBounds(Step(s, h[k - 1], node)) by { ReadInBounds(s, h[k - 1], node); }
    FeedOne(r, h[..k - 1], h[k - 1], node);
  }

  lemma ReadInBounds(r: Receiver, b: byte, node: byte)
    requires r.phase == 0 && |r.data| == MAX_MESSAGE_LENGTH
    ensures InBounds(Step(r, b, node))
  {
  }

  /** After a false start it is too late for the frame. */
  lemma FalseStartIsTooLate(r: Receiver, to: byte, from: byte, n: byte, node: byte)
    requires r.phase == 0 && |r.data| == MAX_MESSAGE_LENGTH && to != from
    requires ForStation(Header(to, from, n), node) && !NoFalseStart(r.header, Header(to, from, n), node)
    requires Fits(r, Header(to, from, n), node)
    ensures TooLate(Feed(r, Header(to, from, n), node), n + 3, n)
  {
    var h: Window := Header(to, from, n);
    var k := FirstFalseStart(r.header, h, node);
    UpToFalseStart(r, h, k, node);
    Windows(r.header, to, from, n);
    assert h == h[..k] + h[k..];
    FitsInParts(r, h[..k], h[k..], node);
    FeedConcat(r, h[..k], h[k..], node);
    var s := Feed(r, h[..k], node);
    assert k == 2 || k == 3 || k == 5;
    hide Step, Accepts, TooLate;
    if k == 2 {
      assert h[k..] == [from, ICSC_SYS_PACK, n, STX];
      StartAtSecond(r.header, s, to, from, n, node);
    } else if k == 3 {
      assert h[k..] == [ICSC_SYS_PACK, n, STX];
      StartAtThird(r.header, s, to, from, n, node);
    } else {
      assert h[k..] == [STX];
      StartAtFifth(s, n, node);
    }
  }

  lemma TrailerHandsOver(t: Receiver, from: byte, data: seq<byte>, node: byte)
    requires |t.data| == MAX_MESSAGE_LENGTH && t.phase == 2 && t.command == ICSC_SYS_PACK && t.sender == from
    requires t.length == |data| <= MAX_MESSAGE_LENGTH && t.data[..|data|] == data
    ensures Fits(t, [ETX, t.calcCs, EOT], node) && HandsOver(t, [ETX, t.calcCs, EOT], from, data, node)
  {
    TrailerAccepted(t, node);
    var t1 := Step(t, ETX, node);
    var t2 := Step(t1, t.calcCs, node);
    assert [ETX, t.calcCs, EOT][1..] == [t.calcCs, EOT] && [t.calcCs, EOT][1..] == [EOT];
    assert HandsOver(t2, [EOT], from, data, node);
    assert HandsOver(t1, [t.calcCs, EOT], from, data, node);
  }

  /** For every idle receiver and every frame for this station: the frame is handed over, by its last byte and
      with its data and sender, exactly if no false start happens while its header comes in. */
  lemma FrameArrivesIff(r: Receiver, to: byte, from: byte, data: seq<byte>, node: byte)
    requires r.phase == 0 && |r.data| == MAX_MESSAGE_LENGTH && |data| <= MAX_MESSAGE_LENGTH
    requires to != from && ForStation(Header(to, from, |data|), node)
    ensures Fits(r, Frame(to, from, data), node) && HandsOver(r, Frame(to, from, data), from, data, node)
       <==> NoFalseStart(r.header, Header(to, from, |data|), node)
  {
    hide Step, Accepts, TooLate, ForStation, Completing, U8;
    var head, rest := Header(to, from, |data|), data + [ETX, Checksum(to, from, data), EOT];
    assert Frame(to, from, data) == head + rest;
    if NoFalseStart(r.header, head, node) {
      FrameDelivered(r, to, from, data, node);
      HeaderAccepted(r, to, from, |data|, node);
      var s := Feed(r, head, node);
      DataPhase(s, data, node);
      var t := Feed(s, data, node);
      assert data[..|data|] == data;
      U8Add(HeaderSum(to, from, ICSC_SYS_PACK, |data|), Sum(data));
      TrailerHandsOver(t, from, data, node);
      FitsInParts(r, head, rest, node);
      FitsInParts(s, data, [ETX, t.calcCs, EOT], node);
    } else if Fits(r, head + rest, node) {
      FitsInParts(r, head, rest, node);
      FalseStartIsTooLate(r, to, from, |data|, node);
      NothingTooLate(Feed(r, head, node), rest, from, data, node);
    }
  }

  /** A window left by noise from which a frame is lost: with the first four bytes of a broadcast header in
      it, the receiver takes the first two bytes of the frame for the rest of that header. */
  lemma StaleWindowLosesFrame(r: Receiver)
    requires r.phase == 0 && |r.data| == MAX_MESSAGE_LENGTH && r.header == [0, 0, SOH, BROADCAST_ADDRESS, 9, 9]
    ensures ForStation(Header(2, 7, 0), 2)
    ensures !(Fits(r, Frame(2, 7, []), 2) && HandsOver(r, Frame(2, 7, []), 7, [], 2))
  {
    hide *;
    StaleWindowStarts(r.header);
    FrameArrivesIff(r, 2, 7, [], 2);
  }

  lemma StaleWindowStarts(w: Window)
    requires w == [0, 0, SOH, BROADCAST_ADDRESS, 9, 9]
    ensures ForStation(Header(2, 7, 0), 2) && |Header(2, 7, 0)| == 6
    ensures !NoFalseStart(w, Header(2, 7, 0), 2)
  {
    Windows(w, 2, 7, 0);
    assert Accepts(Shifted(w, Header(2, 7, 0), 2), 2);
  }
}

module Rs485 {
  import opened Rs485Spec
  import opened Words

  class Transport {
    const node: byte
    const header: array<byte>
    const data: array<byte>
    var recPhase: nat
    var recPos: byte
    var recCommand: byte
    var recLen: byte
    var recStation: byte
    var recSender: byte
    var recCS: byte
    var recCalcCS: byte
    var packetLen: byte
    var packetFrom: byte
    var packetReceived: bool

    ghost predicate Valid()
      reads this
    {
      header.Length == 6 && data.Length == MAX_MESSAGE_LENGTH && header != data
    }

    ghost function State(): Receiver
      requires Valid()
      reads this, header, data
    {
      Receiver(header[..], recPhase, recPos, recCommand, recLen, recStation, recSender, recCS, recCalcCS,
               data[..], packetLen, packetFrom, packetReceived)
    }

    /** transportInit and transportSetAddress. */
    constructor (address: byte)
      ensures Valid() && node == address && recPhase == 0 && !packetReceived
      ensures fresh(header) && fresh(data) && State().header == [0, 0, 0, 0, 0, 0]
    {
      node := address;
      header := new byte[6](_ => 0);
      data := new byte[MAX_MESSAGE_LENGTH](_ => 0);
      recPhase, recPos, recCommand, recLen, recStation, recSender := 0, 0, 0, 0, 0, 0;
      recCS, recCalcCS, packetLen, packetFrom, packetReceived := 0, 0, 0, 0, false;
    }

    method SerialReset()
      requires Valid()
      modifies this
      ensures Valid() && State() == Reset(old(State()))
    {
      recPhase, recPos, recLen, recCommand, recCS, recCalcCS := 0, 0, 0, 0, 0, 0;
    }

    /** memcpy by one place, and the new byte at the end. */
    method ShiftWindow(inch: byte)
      requires Valid()
      modifies header
      ensures header[..] == old(header[..])[1..] + [inch]
    {
      for i := 0 to 5
        invariant forall k :: 0 <= k < i ==> header[k] == old(header[k + 1])
        invariant forall k :: i <= k < 6 ==> header[k] == old(header[k])
      {
        header[i] := header[i + 1];
      }
      header[5] := inch;
    }

    /** Case 0 of the switch: shift the byte into the window and look for a header. */
    method SearchHeader(inch: byte)
      requires Valid() && recPhase == 0
      modifies this, header
      ensures Valid() && State() == Step(old(State()), inch, node)
    {
      ShiftWindow(inch);
      if header[0] == SOH && header[5] == STX && header[1] != header[2] {
        ReadHeader();
      }
    }

    /** A header is in the window: read it, and drop it again unless it is for this station. */
    method ReadHeader()
      requires Valid() && recPhase == 0 && LooksLikeHeader(header[..])
      modifies this
      ensures Valid() && State() == HeaderRead(old(State()), node)
    {
      hide U8, HeaderSum;
      ghost var r := State();
      recStation, recSender, recCommand, recLen := header[1], header[2], header[3], header[4];
      recCalcCS := AddHeader();
      recPhase, recPos := 1, 0;
      assert State() == HeaderFields(r);
      if recSender == node || (recStation != node && recStation != BROADCAST_ADDRESS) {
        SerialReset();
      } else if recLen == 0 {
        recPhase := 2;
      }
    }

    method AddHeader() returns (sum: byte)
      requires Valid()
      ensures sum == U8(HeaderSum(header[1], header[2], header[3], header[4]))
    {
      sum := 0;
      ghost var total: int := 0;
      for i := 1 to 5
        invariant sum == U8(total)
        invariant total == (if i > 1 then header[1] as int else 0) + (if i > 2 then header[2] as int else 0)
                         + (if i > 3 then header[3] as int else 0) + (if i > 4 then header[4] as int else 0)
      {
        U8Add(total, header[i]);
        total := total + header[i];
        sum := U8(sum + header[i]);
      }
    }

    /** Case 1 of the switch: one byte of data. */
    method StoreData(inch: byte)
      requires Valid() && recPhase == 1 && InBounds(State())
      modifies this, data
      ensures Valid() && State() == Step(old(State()), inch, node)
    {
      data[recPos] := inch;
      recPos := U8(recPos + 1);
      recCalcCS := U8(recCalcCS + inch);
      if recPos == recLen {
        recPhase := 2;
      }
    }

    /** The reception state machine for one byte. */
    method ProcessByte(inch: byte) returns (done: bool)
      requires Valid() && InBounds(State())
      modifies this, header, data
      ensures Valid() && State() == Step(old(State()), inch, node)
      ensures done == (old(recPhase) >= 4)
    {
      done := false;
      match recPhase
      case 0 =>
        SearchHeader(inch);
      case 1 =>
        StoreData(inch);
      case 2 =>
        if inch == ETX {
          recPhase := 3;
        } else {
          SerialReset();
        }
      case 3 =>
        recCS := inch;
        recPhase := 4;
      case _ =>
        if inch == EOT {
          if recCS == recCalcCS {
            if recCommand == ICSC_SYS_PACK {
              packetFrom, packetLen, packetReceived := recSender, recLen, true;
            }
          }
        }
        SerialReset();
        done := true;
    }

    /** _serialProcess: take bytes from the line until it is empty or a frame has ended. */
    method SerialProcess(line: seq<byte>) returns (result: bool, rest: seq<byte>)
      requires Valid() && Fits(State(), line, node)
      modifies this, header, data
      ensures Valid() && |rest| <= |line| && rest == line[|line| - |rest|..]
      ensures Fits(old(State()), line[..|line| - |rest|], node)
      ensures State() == Feed(old(State()), line[..|line| - |rest|], node) && Fits(State(), rest, node)
      ensures result == (line != []) && (line != [] ==> |rest| < |line|)
    {
      if line == [] {
        return false, line;
      }
      ghost var start := State();
      ghost var taken: nat := 0;
      rest := line;
      assert line[..0] == [];
      while rest != []
        invariant taken <= |line| && rest == line[taken..] && (taken == 0 ==> rest == line)
        invariant Valid() && Fits(State(), rest, node)
        invariant Fits(start, line[..taken], node) && State() == Feed(start, line[..taken], node)
        decreases |rest|
      {
        ghost var r := State();
        var done := ProcessByte(rest[0]);
        assert [rest[0]][1..] == [];
        assert Fits(r, [rest[0]], node) && Feed(r, [rest[0]], node) == State();
        FeedConcat(start, line[..taken], [rest[0]], node);
        assert line[..taken + 1] == line[..taken] + [rest[0]];
        rest := rest[1..];
        taken := taken + 1;
        if done {
          return true, rest;
        }
      }
      result := true;
    }

    /** transportReceive: the packet data, and the slot is free again. */
    method Receive() returns (packet: seq<byte>)
      requires Valid() && (packetReceived ==> packetLen <= MAX_MESSAGE_LENGTH)
      modifies this`packetReceived
      ensures packet == (if old(packetReceived) then data[..packetLen] else [])
      ensures Valid() && State() == Taken(old(State()))
    {
      if packetReceived {
        packet := data[..packetLen];
        packetReceived := false;
      } else {
        packet := [];
      }
    }

    method SendHeader(to: byte, length: byte) returns (line: seq<byte>, cs: byte)
      ensures line == Header(to, node, length) && cs == U8(HeaderSum(to, node, ICSC_SYS_PACK, length))
    {
      cs := 0;
      assert cs == U8(0);
      hide U8;
      line := [SOH];
      line := line + [to];
      U8Add(0, to);
      cs := U8(cs + to);
      line := line + [node];
      U8Add(to, node);
      cs := U8(cs + node);
      line := line + [ICSC_SYS_PACK];
      U8Add(to as int + node as int, ICSC_SYS_PACK);
      cs := U8(cs + ICSC_SYS_PACK);
      line := line + [length];
      U8Add(to as int + node as int + ICSC_SYS_PACK as int, length);
      cs := U8(cs + length);
      line := line + [STX];
    }

    /** The bytes transportSend writes once the line is quiet. */
    method Send(to: byte, payload: seq<byte>) returns (line: seq<byte>)
      requires |payload| < 256
      ensures line == Frame(to, node, payload)
    {
      hide U8, HeaderSum, Header;
      var cs;
      line, cs := SendHeader(to, |payload|);
      assert line == Header(to, node, |payload|) + payload[..0];
      ghost var head := HeaderSum(to, node, ICSC_SYS_PACK, |payload|);
      for i := 0 to |payload|
        invariant line == Header(to, node, |payload|) + payload[..i]
        invariant cs == U8(head + Sum(payload[..i]))
      {
        line := line + [payload[i]];
        U8Add(head + Sum(payload[..i]), payload[i]);
        cs := U8(cs as int + payload[i]);
        assert payload[..i + 1] == payload[..i] + [payload[i]];
      }
      assert payload[..|payload|] == payload;
      line := line + [ETX] + [cs] + [EOT];
    }
  }

  /** One station sends, another receives: an idle receiver hears the frame out and hands over the data. */
  method Exchange(sender: Transport, receiver: Transport, to: byte, payload: seq<byte>) returns (packet: seq<byte>)
    requires sender.Valid() && receiver.Valid() && sender != receiver
    requires sender.node != receiver.node && sender.node != to
    requires to == receiver.node || to == BROADCAST_ADDRESS
    requires |payload| <= MAX_MESSAGE_LENGTH && receiver.recPhase == 0
    requires NoFalseStart(receiver.header[..], Header(to, sender.node, |payload|), receiver.node)
    modifies receiver, receiver.header, receiver.data
    ensures packet == payload && receiver.packetFrom == sender.node
    ensures receiver.Valid() && receiver.recPhase == 0 && !receiver.packetReceived
  {
    var line := sender.Send(to, payload);
    FrameDelivered(receiver.State(), to, sender.node, payload, receiver.node);
    while line != []
      invariant receiver.Valid() && Fits(receiver.State(), line, receiver.node)
      invariant Holds(Feed(receiver.State(), line, receiver.node), sender.node, payload)
      decreases |line|
    {
      ghost var r, l := receiver.State(), line;
      var result;
      result, line := receiver.SerialProcess(line);
      ghost var taken := l[..|l| - |line|];
      assert l == taken + line;
      FeedConcat(r, taken, line, receiver.node);
    }
    packet := receiver.Receive();
  }
}
