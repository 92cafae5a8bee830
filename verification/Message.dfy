/** The MySensors message: seven header bytes, two of them made of bit fields, and up to 25 bytes of payload. */
module MessageLayout {

  const MAX_MESSAGE_LENGTH: nat := 32
  const MAX_PAYLOAD: nat := 25
  const GATEWAY_ADDRESS: bv8 := 0
  const BROADCAST_ADDRESS: bv8 := 255
  const MAX_HOPS: bv8 := 254
  const AUTO: bv8 := 255

  // Commands, and the message types that routing or signing treats specially.
  const C_INTERNAL: bv8 := 3
  const C_STREAM: bv8 := 4
  const I_ID_REQUEST: bv8 := 3
  const I_ID_RESPONSE: bv8 := 4
  const I_FIND_PARENT_REQUEST: bv8 := 7
  const I_FIND_PARENT_RESPONSE: bv8 := 8
  const I_SIGNING_PRESENTATION: bv8 := 15
  const I_NONCE_REQUEST: bv8 := 16
  const I_NONCE_RESPONSE: bv8 := 17
  const I_HEARTBEAT_REQUEST: bv8 := 18
  const I_DISCOVER_REQUEST: bv8 := 20
  const I_DISCOVER_RESPONSE: bv8 := 21
  const I_HEARTBEAT_RESPONSE: bv8 := 22
  const I_PING: bv8 := 24
  const I_PONG: bv8 := 25
  const I_REGISTRATION_REQUEST: bv8 := 26
  const ST_FIRMWARE_REQUEST: bv8 := 2
  const ST_FIRMWARE_RESPONSE: bv8 := 3
  const ST_SOUND: bv8 := 4
  const ST_IMAGE: bv8 := 5

  // The payload type of a single byte.
  const P_BYTE: bv8 := 1

  /** The bit fields of version_length (the first three) and of command_ack_payload. */
  datatype Field = Version | Signed | Length | Command | RequestAck | Ack | PayloadType {

    function Start(): bv4 {
      match this
      case Version => 0
      case Signed => 2
      case Length => 3
      case Command => 0
      case RequestAck => 3
      case Ack => 4
      case PayloadType => 5
    }

    /** BIT_MASK of the length of the field. */
    function Mask(): bv8 {
      match this
      case Version => 3
      case Signed => 1
      case Length => 31
      case Command => 7
      case RequestAck => 1
      case Ack => 1
      case PayloadType => 7
    }

    predicate InVersionLength() {
      Version? || Signed? || Length?
    }
  }

  /** BF_GET. */
  function Get(y: bv8, f: Field): bv8 {
    (y >> f.Start()) & f.Mask()
  }

  /** BF_SET. */
  function Set(y: bv8, f: Field, x: bv8): bv8 {
    (y & !(f.Mask() << f.Start())) | ((x & f.Mask()) << f.Start())
  }

  lemma GetSet(y: bv8, f: Field, x: bv8)
    ensures Get(Set(y, f, x), f) == x & f.Mask()
  {
  }

  /** Setting one field leaves the other fields of the same byte alone. */
  lemma GetOther(y: bv8, f: Field, x: bv8, g: Field)
    requires f != g && f.InVersionLength() == g.InVersionLength()
    ensures Get(Set(y, f, x), g) == Get(y, g)
  {
    if f.InVersionLength() {
      GetOtherLow(y, f, x, g);
    } else {
      GetOtherHigh(y, f, x, g);
    }
  }

  lemma GetOtherLow(y: bv8, f: Field, x: bv8, g: Field)
    requires f != g && f.InVersionLength() && g.InVersionLength()
    ensures Get(Set(y, f, x), g) == Get(y, g)
  {
  }

  lemma GetOtherHigh(y: bv8, f: Field, x: bv8, g: Field)
    requires f != g && !f.InVersionLength() && !g.InVersionLength()
    ensures Get(Set(y, f, x), g) == Get(y, g)
  {
  }

  /** The two bytes are made of their fields and of nothing else, from the lowest bit up. */
  lemma BytesAreFields(y: bv8)
    ensures y == Get(y, Version) | (Get(y, Signed) << 2) | (Get(y, Length) << 3)
    ensures y == Get(y, Command) | (Get(y, RequestAck) << 3) | (Get(y, Ack) << 4) | (Get(y, PayloadType) << 5)
    ensures Get(y, Version) < 4 && Get(y, Signed) < 2 && Get(y, Length) < 32
    ensures Get(y, Command) < 8 && Get(y, RequestAck) < 2 && Get(y, Ack) < 2 && Get(y, PayloadType) < 8
  {
  }

  type Data = s: seq<bv8> | |s| == MAX_PAYLOAD + 1 witness seq(MAX_PAYLOAD + 1, _ => 0)

  /** A message as it lies in memory; one spare byte of data terminates strings and is not transferred. */
  datatype Message = Message(last: bv8, sender: bv8, destination: bv8, versionLength: bv8,
                             commandAckPayload: bv8, kind: bv8, sensor: bv8, data: Data) {

    function GetLength(): nat {
      Get(versionLength, Length) as nat
    }

    predicate IsSigned() {
      Get(versionLength, Signed) != 0
    }

    predicate IsAck() {
      Get(commandAckPayload, Ack) != 0
    }

    function GetCommand(): bv8 {
      Get(commandAckPayload, Command)
    }
  }

  function SetSigned(m: Message, signed: bool): Message {
    m.(versionLength := Set(m.versionLength, Signed, if signed then 1 else 0))
  }

  lemma SetSignedKeepsLength(m: Message, signed: bool)
    ensures SetSigned(m, signed).GetLength() == m.GetLength()
    ensures SetSigned(m, signed).IsSigned() == signed
  {
    hide Get, Set;
    var x: bv8 := if signed then 1 else 0;
    GetOther(m.versionLength, Signed, x, Length);
    GetSet(m.versionLength, Signed, x);
    assert x & Signed.Mask() == x;
  }
}
