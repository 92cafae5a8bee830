/**
 Message signing with the software ATSHA204 backend.  The receiver issues a nonce; the sender signs its
 message with the nonce and the shared key; the receiver recomputes the signature.  SHA-256 and HMAC are
 any functions into 32 bytes.
 */
module SigningSpec {
  import opened MessageLayout
  import opened Words

  type Digest = s: seq<bv8> | |s| == 32 witness seq(32, _ => 0)

  const SIGNING_IDENTIFIER: bv8 := 1
  const VERIFICATION_TIMEOUT_MS: nat := 5000

  /** What is compiled or provisioned into a node: the hash functions, the key, the node's own serial
      number, and the whitelist of serial numbers, if there is one. */
  datatype Keys = Keys(sha: seq<bv8> -> Digest, hmac: (Digest, seq<bv8>) -> Digest, hmacKey: Digest,
                       serial: seq<bv8>, whitelist: Option<seq<Entry>>)

  datatype Entry = Entry(nodeId: bv8, serial: seq<bv8>)

  function Zeros(n: nat): (s: seq<bv8>)
    ensures |s| == n
  {
    seq(n, _ => 0)
  }

  function Purged(): Digest {
    seq(32, _ => 0xAA)
  }

  /** A nonce as both sides keep it: what fits into a message, and filling. */
  function NonceOf(payload: seq<bv8>): Digest
    requires |payload| >= MAX_PAYLOAD
  {
    payload[..MAX_PAYLOAD] + seq(7, _ => 0xAA)
  }

  /** The bytes a signature covers: everything from sender on, so not last, and not the unused payload. */
  function Covered(m: Message): seq<bv8>
    requires m.GetLength() <= MAX_PAYLOAD
  {
    [m.sender, m.destination, m.versionLength, m.commandAckPayload, m.kind, m.sensor] + m.data[..m.GetLength()]
  }

  /** What the digest is taken of: the covered bytes, filled to 32, the constants of the chip's command, and
      the nonce. */
  function HashInput(m: Message, nonce: Digest): seq<bv8>
    requires m.GetLength() <= MAX_PAYLOAD
  {
    Covered(m) + Zeros(32 - |Covered(m)|) + [0x15, 0x02, 0x08, 0x00, 0xEE, 0x01, 0x23] + Zeros(25) + nonce
  }

  /** What the digest is wrapped into before it is authenticated with the key. */
  function MacInput(digest: Digest): seq<bv8> {
    Zeros(32) + digest + [0x11, 0x04, 0x00, 0x00] + Zeros(11) + [0xEE] + Zeros(4) + [0x01, 0x23] + Zeros(2)
  }

  /** signerCalculateSignature. */
  function Signature(keys: Keys, m: Message, nonce: Digest): Digest
    requires m.GetLength() <= MAX_PAYLOAD
  {
    keys.hmac(keys.hmacKey, MacInput(keys.sha(HashInput(m, nonce))))
  }

  /** The signature salted with a node id and its serial number. */
  function Salted(keys: Keys, signature: Digest, nodeId: bv8, serial: seq<bv8>): Digest {
    keys.sha(signature + [nodeId] + serial)
  }

  /** The bytes of a signature that a message of the given length has room for. */
  function Tail(signature: Digest, length: nat): (t: seq<bv8>)
    requires length <= MAX_PAYLOAD
    ensures |t| == MAX_PAYLOAD - length
  {
    signature[0 := SIGNING_IDENTIFIER][..MAX_PAYLOAD - length]
  }

  function WithTail(m: Message, signature: Digest): Message
    requires m.GetLength() <= MAX_PAYLOAD
  {
    var n := m.GetLength();
    m.(data := m.data[..n] + Tail(signature, n) + m.data[MAX_PAYLOAD..])
  }

  /** The message signerAtsha204SoftSignMsg makes, for a destination that wants serials salted in or not. */
  function SignedMessage(keys: Keys, m: Message, nonce: Digest, salt: bool): Message
    requires m.GetLength() <= MAX_PAYLOAD - 2
  {
    SetSignedKeepsLength(m, true);
    var marked := SetSigned(m, true);
    var signature := Signature(keys, marked, nonce);
    WithTail(marked, if salt then Salted(keys, signature, m.sender, keys.serial) else signature)
  }

  /** The serial number the whitelist holds for a node: its first entry counts. */
  function Listed(entries: seq<Entry>, nodeId: bv8): Option<seq<bv8>> {
    if entries == [] then None
    else if entries[0].nodeId == nodeId then Some(entries[0].serial)
    else Listed(entries[1..], nodeId)
  }

  /** The signature the receiver expects, if the sender may sign at all. */
  function Expected(keys: Keys, m: Message, nonce: Digest): Option<Digest>
    requires m.GetLength() <= MAX_PAYLOAD
  {
    var signature := Signature(keys, m, nonce);
    match keys.whitelist
    case None => Some(signature)
    case Some(entries) =>
      match Listed(entries, m.sender)
      case None => None
      case Some(serial) => Some(Salted(keys, signature, m.sender, serial))
  }

  /** The message carries the identifier and the expected signature, as far as there is room. */
  predicate Genuine(keys: Keys, m: Message, nonce: Digest)
    requires m.GetLength() <= MAX_PAYLOAD
  {
    var n := m.GetLength();
    && m.data[n] == SIGNING_IDENTIFIER
    && Expected(keys, m, nonce).Some?
    && m.data[n..MAX_PAYLOAD] == Tail(Expected(keys, m, nonce).value, n)
  }

  // ----- The handshake -----

  /** Sender and receiver share hash functions and key, and the sender salts exactly when the receiver
      whitelists, with the serial number it is listed with. */
  ghost predicate Agree(sender: Keys, receiver: Keys, salt: bool, nodeId: bv8) {
    && sender.sha == receiver.sha && sender.hmac == receiver.hmac && sender.hmacKey == receiver.hmacKey
    && match receiver.whitelist
       case None => !salt
       case Some(entries) => salt && Listed(entries, nodeId) == Some(sender.serial)
  }

  /** A relay, and what it reads out of the payload as a number of hops. */
  datatype Relay = Relay(id: bv8, hops: bv8)

  /** Relays count the hops of pings and pongs in the payload. */
  predicate CarriesHops(m: Message) {
    m.GetCommand() == C_INTERNAL && (m.kind == I_PING || m.kind == I_PONG)
  }

  function SetByte(m: Message, value: bv8): Message {
    m.(versionLength := Set(m.versionLength, Length, 1),
       commandAckPayload := Set(m.commandAckPayload, PayloadType, P_BYTE),
       data := m.data[0 := value])
  }

  /** What a relay sends on: the hops counted, and its own id in last. */
  function Onward(m: Message, r: Relay): Message {
    var counted := if CarriesHops(m) && r.hops != MAX_HOPS then SetByte(m, r.hops + 1) else m;
    counted.(last := r.id)
  }

  function Relayed(m: Message, path: seq<Relay>): Message
    decreases |path|
  {
    if path == [] then m else Relayed(Onward(m, path[0]), path[1..])
  }

  lemma {:induction false} RelayedIsLast(m: Message, path: seq<Relay>)
    requires !CarriesHops(m)
    ensures Relayed(m, path) == m.(last := if path == [] then m.last else path[|path| - 1].id)
    decreases |path|
  {
    if path != [] {
      RelayedIsLast(m.(last := path[0].id), path[1..]);
    }
  }

  /** Whatever may be signed arrives over any relays as it was sent, but for last, which no signature covers. */
  lemma RelaysKeepSigned(m: Message, path: seq<Relay>)
    requires !SkipSign(m)
    ensures Relayed(m, path) == m.(last := if path == [] then m.last else path[|path| - 1].id)
    ensures m.GetLength() <= MAX_PAYLOAD ==> Covered(Relayed(m, path)) == Covered(m)
  {
    RelayedIsLast(m, path);
  }

  /** The exemption is needed: the first relay of a ping or pong changes what a signature would cover. */
  lemma RelaysBreakPings(m: Message, id: bv8)
    requires CarriesHops(m) && m.GetLength() == 1 && Get(m.commandAckPayload, PayloadType) == P_BYTE
    requires m.data[0] != MAX_HOPS
    ensures var o := Onward(m, Relay(id, m.data[0]));
            o.GetLength() == 1 && Covered(o) != Covered(m)
  {
    hide Get, Set;
    var o := Onward(m, Relay(id, m.data[0]));
    GetSet(m.versionLength, Length, 1);
    assert 1 & Length.Mask() == 1;
    assert Covered(o)[6] == m.data[0] + 1 && Covered(m)[6] == m.data[0];
  }

  /** Signing changes nothing that the signature covers but the signed flag. */
  lemma SignedCovers(keys: Keys, m: Message, nonce: Digest, salt: bool)
    requires m.GetLength() <= MAX_PAYLOAD - 2
    ensures var s := SignedMessage(keys, m, nonce, salt);
            s.GetLength() == m.GetLength() && Covered(s) == Covered(SetSigned(m, true)) && s.IsSigned()
  {
    SetSignedKeepsLength(m, true);
    var s := SignedMessage(keys, m, nonce, salt);
    var n := m.GetLength();
    assert s.data[..n] == m.data[..n];
  }

  /** A signed message is genuine for the receiver that issued the nonce, over any path of relays. */
  lemma SignedIsGenuine(sender: Keys, receiver: Keys, m: Message, nonce: Digest, salt: bool, path: seq<Relay>)
    requires m.GetLength() <= MAX_PAYLOAD - 2 && Agree(sender, receiver, salt, m.sender) && !CarriesHops(m)
    ensures var s := Relayed(SignedMessage(sender, m, nonce, salt), path);
            s.GetLength() == m.GetLength() && Genuine(receiver, s, nonce)
  {
    hide Get, Set;
    var n := m.GetLength();
    var s := SignedMessage(sender, m, nonce, salt);
    var r := Relayed(s, path);
    RelayedIsLast(s, path);
    SignedCovers(sender, m, nonce, salt);
    SetSignedKeepsLength(m, true);
    assert Covered(r) == Covered(SetSigned(m, true));
    assert Signature(receiver, r, nonce) == Signature(sender, SetSigned(m, true), nonce);
    var signature := Expected(receiver, r, nonce).value;
    assert s.data == m.data[..n] + Tail(signature, n) + m.data[MAX_PAYLOAD..];
    assert r.data[n..MAX_PAYLOAD] == Tail(signature, n);
  }

  // ----- What a signature depends on -----

  /** The two messages agree in everything that is to be signed: sender, destination, flags and length, command
      and types, sensor and payload. */
  predicate SameSigned(m: Message, o: Message) {
    && m.sender == o.sender && m.destination == o.destination && m.versionLength == o.versionLength
    && m.commandAckPayload == o.commandAckPayload && m.kind == o.kind && m.sensor == o.sensor
    && m.GetLength() <= MAX_PAYLOAD && m.data[..m.GetLength()] == o.data[..m.GetLength()]
  }

  /** Neither a byte to be signed nor one of the nonce is lost on the way to the digest. */
  lemma HashInputInjective(m: Message, n: Digest, o: Message, k: Digest)
    requires m.GetLength() <= MAX_PAYLOAD && o.GetLength() <= MAX_PAYLOAD && HashInput(m, n) == HashInput(o, k)
    ensures SameSigned(m, o) && n == k
  {
    hide Get;
    var x, y := HashInput(m, n), HashInput(o, k);
    assert |x| == 96 && |y| == 96;
    assert n == x[64..] && k == y[64..];
    assert x[0] == m.sender && x[1] == m.destination && x[2] == m.versionLength;
    assert y[0] == o.sender && y[1] == o.destination && y[2] == o.versionLength;
    assert x[3] == m.commandAckPayload && x[4] == m.kind && x[5] == m.sensor;
    assert y[3] == o.commandAckPayload && y[4] == o.kind && y[5] == o.sensor;
    var length := m.GetLength();
    assert x[6..6 + length] == m.data[..length] && y[6..6 + length] == o.data[..length];
  }

  function Blank(): Digest {
    seq(32, _ => 0)
  }

  function Ones(): Digest {
    seq(32, _ => 1)
  }

  /** A hash function that tells one input from all others, and a code that lets the digest through. */
  function Telling(input: seq<bv8>): Keys {
    Keys(x => if x == input then Ones() else Blank(),
         (_, x) => if |x| == 88 then x[32..64] else Blank(), Blank(), [], None)
  }

  /** If a byte to be signed differs, or the nonce, no more than two bytes of the signature are needed to tell
      under some keys. */
  lemma SignatureTells(m: Message, n: Digest, o: Message, k: Digest)
    requires m.GetLength() <= MAX_PAYLOAD && o.GetLength() <= MAX_PAYLOAD && (!SameSigned(m, o) || n != k)
    ensures var keys := Telling(HashInput(m, n));
            Signature(keys, m, n) == Ones() && Signature(keys, o, k) == Blank()
  {
    hide Get, HashInput;
    if HashInput(o, k) == HashInput(m, n) { HashInputInjective(m, n, o, k); }
    MacCarries(Ones());
    MacCarries(Blank());
  }

  lemma MacCarries(digest: Digest)
    ensures |MacInput(digest)| == 88 && MacInput(digest)[32..64] == digest
  {
  }

  /** A signature depends on the nonce and on every byte to be signed. */
  lemma SignatureDepends(m: Message, n: Digest, o: Message, k: Digest)
    requires m.GetLength() <= MAX_PAYLOAD && o.GetLength() <= MAX_PAYLOAD
    ensures !SameSigned(m, o) || n != k <==> exists keys: Keys :: Signature(keys, m, n) != Signature(keys, o, k)
  {
    hide Get;
    if !SameSigned(m, o) || n != k {
      SignatureTells(m, n, o, k);
      var keys := Telling(HashInput(m, n));
      assert Ones()[0] != Blank()[0];
      assert Signature(keys, m, n) != Signature(keys, o, k);
    } else {
      assert Covered(m) == Covered(o);
    }
  }

  /** The message o with what the signed message s has behind its payload. */
  function Forged(o: Message, s: Message): Message
    requires o.GetLength() <= MAX_PAYLOAD
  {
    var n := o.GetLength();
    o.(data := o.data[..n] + s.data[n..])
  }

  lemma ForgedSame(o: Message, s: Message)
    requires o.GetLength() <= MAX_PAYLOAD
    ensures var f := Forged(o, s);
            f.GetLength() == o.GetLength() && SameSigned(o, f) && f.data[o.GetLength()..] == s.data[o.GetLength()..]
  {
    hide Get;
  }

  /** A signature that is carried over to a message with another byte to be signed, or presented under another
      nonce, is refused under some keys. */
  lemma CarriedOverIsRefused(m: Message, n: Digest, o: Message, k: Digest)
    requires m.GetLength() == o.GetLength() <= MAX_PAYLOAD - 2
    requires !SameSigned(SetSigned(m, true), o) || n != k
    ensures exists keys: Keys :: keys.whitelist == None && RefusesForged(keys, m, n, o, k)
  {
    hide Get, Set, SetSigned, HashInput, Genuine, SignedMessage, Telling, Forged, Signature;
    SetSignedKeepsLength(m, true);
    var marked := SetSigned(m, true);
    var keys := Telling(HashInput(marked, n));
    TellingHasNoList(HashInput(marked, n));
    SignedIsGenuineHere(keys, m, n);
    var s := SignedMessage(keys, m, n, false);
    ForgedSame(o, s);
    SignatureTells(marked, n, Forged(o, s), k);
    TailOfSigned(keys, m, n);
    WrongTail(keys, Forged(o, s), k);
  }

  ghost predicate RefusesForged(keys: Keys, m: Message, n: Digest, o: Message, k: Digest)
    requires m.GetLength() == o.GetLength() <= MAX_PAYLOAD - 2
  {
    var s := SignedMessage(keys, m, n, false);
    && s.GetLength() == m.GetLength() && Genuine(keys, s, n)
    && Forged(o, s).GetLength() == m.GetLength() && !Genuine(keys, Forged(o, s), k)
  }

  lemma TellingHasNoList(input: seq<bv8>)
    ensures Telling(input).whitelist == None
  {
  }

  lemma TailOfSigned(keys: Keys, m: Message, n: Digest)
    requires m.GetLength() <= MAX_PAYLOAD - 2 && SetSigned(m, true).GetLength() == m.GetLength()
    requires Signature(keys, SetSigned(m, true), n) == Ones()
    ensures SignedMessage(keys, m, n, false).data[m.GetLength() + 1] == 1
  {
    hide Get, Set, SetSigned, Signature;
    assert Tail(Ones(), m.GetLength())[1] == 1;
  }

  lemma WrongTail(keys: Keys, f: Message, k: Digest)
    requires f.GetLength() <= MAX_PAYLOAD - 2 && f.data[f.GetLength() + 1] == 1
    requires Expected(keys, f, k) == Some(Blank())
    ensures !Genuine(keys, f, k)
  {
    hide Get, Expected;
    assert Tail(Blank(), f.GetLength())[1] == 0;
    assert f.data[f.GetLength()..MAX_PAYLOAD][1] == 1;
  }

  lemma SignedIsGenuineHere(keys: Keys, m: Message, n: Digest)
    requires m.GetLength() <= MAX_PAYLOAD - 2 && keys.whitelist == None
    ensures var s := SignedMessage(keys, m, n, false);
            s.GetLength() == m.GetLength() && Genuine(keys, s, n)
  {
    hide Get, Set, HashInput, Signature;
    var s := SignedMessage(keys, m, n, false);
    SetSignedKeepsLength(m, true);
    SignedCovers(keys, m, n, false);
    SameCoverage(keys, s, SetSigned(m, true), n);
    assert s.data[m.GetLength()..MAX_PAYLOAD] == Tail(Signature(keys, SetSigned(m, true), n), m.GetLength());
  }

  lemma SameCoverage(keys: Keys, m: Message, o: Message, n: Digest)
    requires m.GetLength() <= MAX_PAYLOAD && o.GetLength() <= MAX_PAYLOAD && Covered(m) == Covered(o)
    ensures Signature(keys, m, n) == Signature(keys, o, n)
  {
  }

  /** In particular a recorded message is refused, under some keys, when another nonce has been issued since. */
  lemma ReplayIsRefused(m: Message, n: Digest, k: Digest)
    requires m.GetLength() <= MAX_PAYLOAD - 2 && n != k
    ensures exists keys: Keys ::
              var s := SignedMessage(keys, m, n, false);
              s.GetLength() == m.GetLength() && Genuine(keys, s, n) && !Genuine(keys, s, k)
  {
    hide Get, Set, SetSigned, HashInput;
    SetSignedKeepsLength(m, true);
    var marked := SetSigned(m, true);
    var keys := Telling(HashInput(marked, n));
    var s := SignedMessage(keys, m, n, false);
    SignedIsGenuineHere(keys, m, n);
    SignatureTells(marked, n, s, k);
    var l := m.GetLength();
    assert s.data[l..MAX_PAYLOAD][1] == Tail(Ones(), l)[1] == 1;
    assert Expected(keys, s, k) == Some(Blank()) && Tail(Blank(), l)[1] == 0;
  }

  /** The salt keeps all of what it is given. */
  lemma SaltDepends(a: Digest, id: bv8, serial: seq<bv8>, b: Digest, other: bv8, number: seq<bv8>)
    ensures (a, id, serial) != (b, other, number) <==>
              exists keys: Keys :: Salted(keys, a, id, serial) != Salted(keys, b, other, number)
  {
    var x, y := a + [id] + serial, b + [other] + number;
    assert x[..32] == a && y[..32] == b && x[32] == id && y[32] == other && x[33..] == serial && y[33..] == number;
    if x != y {
      var keys := Telling(x);
      assert Ones()[0] != Blank()[0];
      assert Salted(keys, a, id, serial) != Salted(keys, b, other, number);
    }
  }

  /** A recorded message is refused under another nonce where serial numbers are salted in as well. */
  lemma SaltedReplayIsRefused(m: Message, n: Digest, k: Digest, serial: seq<bv8>)
    requires m.GetLength() <= MAX_PAYLOAD - 2 && n != k && |serial| == 9
    ensures exists keys: Keys ::
              var s := SignedMessage(keys, m, n, true);
              && keys.serial == serial && keys.whitelist == Some([Entry(m.sender, serial)])
              && s.GetLength() == m.GetLength() && Genuine(keys, s, n) && !Genuine(keys, s, k)
  {
    hide Get, Set, SetSigned, HashInput, Genuine, Expected, SignedMessage, Signature;
    SetSignedKeepsLength(m, true);
    var marked := SetSigned(m, true);
    var input, salted := HashInput(marked, n), Ones() + [m.sender] + serial;
    var keys := Keys(x => if x == input || x == salted then Ones() else Blank(),
                     (_, x) => if |x| == 88 then x[32..64] else Blank(), Blank(), serial,
                     Some([Entry(m.sender, serial)]));
    var s := SignedMessage(keys, m, n, true);
    SignedCovers(keys, m, n, true);
    SignedKeepsSender(keys, m, n, true);
    SaltedSignature(keys, m, n, s);
    SaltedUnderOther(keys, marked, n, s, k, serial);
    WrongTail(keys, s, k);
  }

  lemma SaltedSignature(keys: Keys, m: Message, n: Digest, s: Message)
    requires m.GetLength() <= MAX_PAYLOAD - 2 && s == SignedMessage(keys, m, n, true)
    requires s.GetLength() == SetSigned(m, true).GetLength() == m.GetLength() && s.sender == m.sender
    requires Covered(s) == Covered(SetSigned(m, true))
    requires keys.whitelist == Some([Entry(m.sender, keys.serial)])
    requires forall input :: |input| == 88 ==> keys.hmac(keys.hmacKey, input) == input[32..64]
    requires keys.sha(HashInput(SetSigned(m, true), n)) == keys.sha(Ones() + [m.sender] + keys.serial) == Ones()
    ensures Genuine(keys, s, n) && s.data[s.GetLength() + 1] == 1
  {
    hide Get, Set, SetSigned, HashInput;
    MacCarries(Ones());
    SameCoverage(keys, s, SetSigned(m, true), n);
    assert Signature(keys, s, n) == Ones();
    assert Listed([Entry(m.sender, keys.serial)], s.sender) == Some(keys.serial);
    assert Expected(keys, s, n) == Some(Ones());
    assert s.data[m.GetLength()..MAX_PAYLOAD] == Tail(Ones(), m.GetLength());
    assert s.data[m.GetLength()..MAX_PAYLOAD][1] == 1;
  }

  lemma SaltedUnderOther(keys: Keys, marked: Message, n: Digest, s: Message, k: Digest, serial: seq<bv8>)
    requires marked.GetLength() <= MAX_PAYLOAD && s.GetLength() <= MAX_PAYLOAD && n != k && |serial| == 9
    requires keys.whitelist == Some([Entry(s.sender, serial)])
    requires forall input :: |input| == 88 ==> keys.hmac(keys.hmacKey, input) == input[32..64]
    requires forall x :: x != HashInput(marked, n) && x != Ones() + [s.sender] + serial ==> keys.sha(x) == Blank()
    ensures Expected(keys, s, k) == Some(Blank())
  {
    hide Get;
    MacCarries(Blank());
    if HashInput(s, k) == HashInput(marked, n) { HashInputInjective(s, k, marked, n); }
    assert |HashInput(s, k)| == 96 == |HashInput(marked, n)|;
    assert |Ones() + [s.sender] + serial| == 42 == |Blank() + [s.sender] + serial|;
    hide HashInput;
    assert Signature(keys, s, k) == Blank();
    assert (Blank() + [s.sender] + serial)[0] == 0 && (Ones() + [s.sender] + serial)[0] == 1;
    assert Salted(keys, Blank(), s.sender, serial) == Blank();
    assert Listed([Entry(s.sender, serial)], s.sender) == Some(serial);
  }

  /** The key counts: a sender with another one is refused for some functions. */
  lemma OtherKeyIsRefused(m: Message, n: Digest, key: Digest, other: Digest)
    requires m.GetLength() <= MAX_PAYLOAD - 2 && key != other
    ensures exists receiver: Keys ::
              var s := SignedMessage(receiver.(hmacKey := other), m, n, false);
              receiver.hmacKey == key && receiver.whitelist == None
              && s.GetLength() == m.GetLength() && !Genuine(receiver, s, n)
  {
    hide Get, Set, SetSigned, HashInput;
    SetSignedKeepsLength(m, true);
    var receiver := Keys(_ => Blank(), (k, _) => if k == key then Ones() else Blank(), key, [], None);
    var sender := receiver.(hmacKey := other);
    var s, l := SignedMessage(sender, m, n, false), m.GetLength();
    SignedCovers(sender, m, n, false);
    assert s.data[l..MAX_PAYLOAD][1] == Tail(Blank(), l)[1] == 0;
    assert Expected(receiver, s, n) == Some(Ones()) && Tail(Ones(), l)[1] == 1;
  }

  /** And so does the serial number where senders are listed: one that signs with another is refused. */
  lemma OtherSerialIsRefused(m: Message, n: Digest, serial: seq<bv8>, other: seq<bv8>)
    requires m.GetLength() <= MAX_PAYLOAD - 2 && serial != other
    ensures exists receiver: Keys ::
              var s := SignedMessage(receiver.(serial := other), m, n, true);
              receiver.whitelist == Some([Entry(m.sender, serial)])
              && s.GetLength() == m.GetLength() && !Genuine(receiver, s, n)
  {
    hide Get, Set, SetSigned, HashInput;
    SetSignedKeepsLength(m, true);
    var input := Blank() + [m.sender] + serial;
    var receiver := Keys(x => if x == input then Ones() else Blank(), (_, _) => Blank(), Blank(), [],
                         Some([Entry(m.sender, serial)]));
    var s, l := SignedMessage(receiver.(serial := other), m, n, true), m.GetLength();
    SignedCovers(receiver.(serial := other), m, n, true);
    SignedKeepsSender(receiver.(serial := other), m, n, true);
    var salted := Blank() + [m.sender] + other;
    assert salted[33..] == other && input[33..] == serial;
    assert s.data[l..MAX_PAYLOAD][1] == Tail(Blank(), l)[1] == 0;
    assert Listed([Entry(m.sender, serial)], m.sender) == Some(serial);
    assert Expected(receiver, s, n) == Some(Ones()) && Tail(Ones(), l)[1] == 1;
  }

  lemma SignedKeepsSender(keys: Keys, m: Message, n: Digest, salt: bool)
    requires m.GetLength() <= MAX_PAYLOAD - 2
    ensures SignedMessage(keys, m, n, salt).sender == m.sender
  {
  }

  /** Who is not listed is refused, whatever the message carries. */
  lemma UnlistedIsRefused(keys: Keys, m: Message, n: Digest)
    requires m.GetLength() <= MAX_PAYLOAD && keys.whitelist.Some?
    requires forall e :: e in keys.whitelist.value ==> e.nodeId != m.sender
    ensures !Genuine(keys, m, n)
  {
    NotListed(keys.whitelist.value, m.sender);
  }

  lemma {:induction false} NotListed(entries: seq<Entry>, nodeId: bv8)
    requires forall e :: e in entries ==> e.nodeId != nodeId
    ensures Listed(entries, nodeId) == None
  {
    if entries != [] {
      assert entries[0] in entries;
      NotListed(entries[1..], nodeId);
    }
  }

  /** All the bytes of a nonce that travel are kept. */
  lemma NonceIsKept(p: seq<bv8>, q: seq<bv8>)
    requires |p| >= MAX_PAYLOAD && |q| >= MAX_PAYLOAD
    ensures NonceOf(p) == NonceOf(q) <==> p[..MAX_PAYLOAD] == q[..MAX_PAYLOAD]
  {
    assert NonceOf(p)[..MAX_PAYLOAD] == p[..MAX_PAYLOAD] && NonceOf(q)[..MAX_PAYLOAD] == q[..MAX_PAYLOAD];
  }

  // ----- The time a nonce is good for -----

  /** The timestamp kept for a nonce issued at time t, which starts over when the clock is about to. */
  function Stamp(t: nat): nat {
    if U32(t + VERIFICATION_TIMEOUT_MS) < t then 0 else t
  }

  predicate Expired(timestamp: nat, now: nat) {
    now < timestamp || now > U32(timestamp + VERIFICATION_TIMEOUT_MS)
  }

  /** Away from the turnover of the clock a nonce is good for exactly five seconds; a nonce issued in
      the last five seconds before it is good in the first five seconds after it, and not before. */
  lemma NonceLifetime(issued: nat, now: nat)
    requires issued < 0x1_0000_0000 && now < 0x1_0000_0000
    ensures !Expired(Stamp(issued), now) <==>
              if issued + VERIFICATION_TIMEOUT_MS < 0x1_0000_0000
              then issued <= now <= issued + VERIFICATION_TIMEOUT_MS
              else now <= VERIFICATION_TIMEOUT_MS
  {
  }

  // ----- Exceptions -----

  predicate ExemptInternal(kind: bv8) {
    kind in {I_NONCE_REQUEST, I_NONCE_RESPONSE, I_SIGNING_PRESENTATION, I_ID_REQUEST, I_ID_RESPONSE,
             I_FIND_PARENT_REQUEST, I_FIND_PARENT_RESPONSE, I_HEARTBEAT_REQUEST, I_HEARTBEAT_RESPONSE,
             I_PING, I_PONG, I_REGISTRATION_REQUEST, I_DISCOVER_REQUEST, I_DISCOVER_RESPONSE}
  }

  /** skipSign. */
  predicate SkipSign(m: Message) {
    || m.IsAck()
    || (m.GetCommand() == C_INTERNAL && ExemptInternal(m.kind))
    || (m.GetCommand() == C_STREAM
        && m.kind in {ST_FIRMWARE_REQUEST, ST_FIRMWARE_RESPONSE, ST_SOUND, ST_IMAGE})
  }

  /** Of presentations, values and requests only acknowledgements are exempt; of internal messages those that
      the handshake and the routing need before there can be a nonce; of streams all but the firmware offers. */
  lemma WhatIsSigned(m: Message)
    requires !m.IsAck()
    ensures m.GetCommand() != C_INTERNAL && m.GetCommand() != C_STREAM ==> !SkipSign(m)
    ensures m.GetCommand() == C_INTERNAL ==> (SkipSign(m) <==>
              || m.kind == 3 || m.kind == 4 || m.kind == 7 || m.kind == 8 || m.kind == 15 || m.kind == 16
              || m.kind == 17 || m.kind == 18 || m.kind == 20 || m.kind == 21 || m.kind == 22 || m.kind == 24
              || m.kind == 25 || m.kind == 26)
    ensures m.GetCommand() == C_STREAM ==> (SkipSign(m) <==> 2 <= m.kind <= 5)
  {
    hide Get;
  }

  // ----- Whole runs of a receiver -----

  /** A receiver's verification session. */
  datatype Session = Session(ongoing: bool, timestamp: nat, nonce: Digest)

  datatype SessionEvent =
    | Issue(random: seq<bv8>, now: nat)   // a nonce is asked for
    | Arrives(m: Message, now: nat)       // a message is checked
    | Timer(now: nat)                     // signerCheckTimer

  predicate Checked(nodeId: bv8, m: Message) {
    m.destination == nodeId && !SkipSign(m) && m.IsSigned()
  }

  predicate Live(s: Session, now: nat) {
    s.ongoing && !Expired(s.timestamp, now)
  }

  function NonceFrom(keys: Keys, random: seq<bv8>): Digest {
    NonceOf(keys.sha(random)[..MAX_PAYLOAD])
  }

  function OnSession(keys: Keys, nodeId: bv8, s: Session, e: SessionEvent): Session
    requires e.Arrives? ==> e.m.GetLength() <= MAX_PAYLOAD
  {
    match e
    case Issue(random, now) => Session(true, Stamp(now), NonceFrom(keys, random))
    case Timer(now) => if s.ongoing && Expired(s.timestamp, now) then Session(false, s.timestamp, Purged()) else s
    case Arrives(m, now) =>
      if !Checked(nodeId, m) || !s.ongoing then s
      else if Live(s, now) && m.data[m.GetLength()] != SIGNING_IDENTIFIER then s.(ongoing := false)
      else Session(false, s.timestamp, Purged())
  }

  /** What a message does to the session, spelled out. */
  lemma AfterArrival(keys: Keys, nodeId: bv8, s: Session, m: Message, now: nat)
    requires m.GetLength() <= MAX_PAYLOAD
    ensures OnSession(keys, nodeId, s, Arrives(m, now)) ==
              if !Checked(nodeId, m) then s
              else Session(false, s.timestamp,
                           if s.ongoing && (Expired(s.timestamp, now) || m.data[m.GetLength()] == SIGNING_IDENTIFIER)
                           then Purged() else s.nonce)
  {
    hide SkipSign, Get, Expired, Purged;
  }

  /** The message is admitted because of its signature. */
  predicate AdmitsSigned(keys: Keys, nodeId: bv8, s: Session, e: SessionEvent)
    requires e.Arrives? ==> e.m.GetLength() <= MAX_PAYLOAD
  {
    e.Arrives? && Checked(nodeId, e.m) && Live(s, e.now) && Genuine(keys, e.m, s.nonce)
  }

  predicate Sized(events: seq<SessionEvent>) {
    forall i :: 0 <= i < |events| ==> events[i].Arrives? ==> events[i].m.GetLength() <= MAX_PAYLOAD
  }

  function AdmittedIn(keys: Keys, nodeId: bv8, s: Session, events: seq<SessionEvent>): nat
    requires Sized(events)
    decreases |events|
  {
    if events == [] then 0
    else
      assert Sized(events[1..]) by { SizedRest(events); }
      (if AdmitsSigned(keys, nodeId, s, events[0]) then 1 else 0) +
      AdmittedIn(keys, nodeId, OnSession(keys, nodeId, s, events[0]), events[1..])
  }

  lemma SizedRest(events: seq<SessionEvent>)
    requires Sized(events) && events != []
    ensures Sized(events[1..])
  {
  }

  function IssuedIn(events: seq<SessionEvent>): nat {
    if events == [] then 0 else (if events[0].Issue? then 1 else 0) + IssuedIn(events[1..])
  }

  /** Whatever arrives and whenever, every message admitted by its signature costs a nonce: their number is at most
      that of the nonces issued, with the one that may be open at the start. */
  lemma {:induction false} EveryAdmissionCostsANonce(keys: Keys, nodeId: bv8, s: Session, events: seq<SessionEvent>)
    requires Sized(events)
    ensures AdmittedIn(keys, nodeId, s, events) <= IssuedIn(events) + if s.ongoing then 1 else 0
    decreases |events|
  {
    if events != [] {
      SizedRest(events);
      OneEventCosts(keys, nodeId, s, events[0]);
      hide OnSession, AdmitsSigned, Sized;
      EveryAdmissionCostsANonce(keys, nodeId, OnSession(keys, nodeId, s, events[0]), events[1..]);
    }
  }

  lemma OneEventCosts(keys: Keys, nodeId: bv8, s: Session, e: SessionEvent)
    requires e.Arrives? ==> e.m.GetLength() <= MAX_PAYLOAD
    ensures (if AdmitsSigned(keys, nodeId, s, e) then 1 else 0)
            + (if OnSession(keys, nodeId, s, e).ongoing then 1 else 0)
         <= (if e.Issue? then 1 else 0) + (if s.ongoing then 1 else 0)
  {
    hide Genuine, SkipSign, NonceFrom;
  }
}

module Signing {
  import opened MessageLayout
  import opened SigningSpec
  import opened ByteBits
  import opened Words

  /** signerMemcmp: the result does not depend on where the buffers differ. */
  method Memcmp(a: seq<bv8>, b: seq<bv8>) returns (r: int)
    requires |a| == |b|
    ensures r == 0 <==> a == b
    ensures r == 0 || r == -1
  {
    var done := 0;
    for i := 0 to |a|
      invariant done == 0 || done == 1 || done == 2 || done == 3
      invariant done == 0 <==> a[..i] == b[..i]
    {
      assert a[..i + 1] == a[..i] + [a[i]] && b[..i + 1] == b[..i] + [b[i]];
      if a[i] == b[i] {
        if done > 0 {
          done := 1;
        } else {
          done := 0;
        }
      } else {
        if done > 0 {
          done := 2;
        } else {
          done := 3;
        }
      }
    }
    assert a[..|a|] == a && b[..|b|] == b;
    r := if done > 0 then -1 else 0;
  }

  /** A node's signing state: one verification session, one nonce to sign with, and the tables of
      nodes that want messages signed or salted (a cleared bit means yes). */
  class Signer {
    const keys: Keys
    const nodeId: bv8
    const doSign: array<bv8>
    const doWhitelist: array<bv8>
    var verificationOngoing: bool
    var timestamp: nat
    var verifyingNonce: Digest
    var signingNonce: Digest
    var pending: Message
    var nonceReceived: bool

    ghost predicate Valid()
      reads this
    {
      doSign.Length == 32 && doWhitelist.Length == 32 && doSign != doWhitelist
    }

    function View(): Session
      reads this
    {
      Session(verificationOngoing, timestamp, verifyingNonce)
    }

    constructor (keys: Keys, nodeId: bv8)
      ensures Valid() && this.keys == keys && this.nodeId == nodeId && !verificationOngoing
      ensures fresh(doSign) && fresh(doWhitelist)
      ensures forall n: nat :: n < 256 ==> !Wants(doSign, n) && !Wants(doWhitelist, n)
    {
      this.keys, this.nodeId := keys, nodeId;
      doSign := new bv8[32](_ => 0xFF);
      doWhitelist := new bv8[32](_ => 0xFF);
      verificationOngoing, timestamp, nonceReceived := false, 0, false;
      verifyingNonce, signingNonce := Purged(), Purged();
      pending := Message(0, 0, 0, 0, 0, 0, 0, Zeros(26));
      new;
      forall n: nat | n < 256
        ensures !Wants(doSign, n) && !Wants(doWhitelist, n)
      {
        AllBitsSet(n % 8);
      }
    }

    /** DO_SIGN and DO_WHITELIST. */
    static predicate Wants(table: array<bv8>, node: nat)
      requires table.Length == 32 && node < 256
      reads table
    {
      !Bit(table[node / 8], node % 8)
    }

    static method SetWants(table: array<bv8>, node: nat, wants: bool)
      requires table.Length == 32 && node < 256
      modifies table
      ensures forall n: nat :: n < 256 ==> Wants(table, n) == if n == node then wants else old(Wants(table, n))
    {
      hide Written, Mask, Bit;
      var i, k := node / 8, node % 8;
      ghost var before := table[i];
      table[i] := Written(table[i], Mask(k), !wants);
      forall n: nat | n < 256
        ensures Wants(table, n) == if n == node then wants else old(Wants(table, n))
      {
        if n / 8 == i {
          WrittenBit(before, k, !wants, n % 8);
          assert n % 8 == k ==> n == node;
        }
      }
    }

    /** signerInternalProcessPresentation: another node states what it wants from us.  Flags of an
        unknown version are dropped. */
    method ProcessPresentation(msg: Message)
      requires Valid()
      modifies doSign, doWhitelist
      ensures msg.data[0] != 1 ==> doSign[..] == old(doSign[..]) && doWhitelist[..] == old(doWhitelist[..])
      ensures msg.data[0] == 1 ==> forall n: nat :: n < 256 ==>
                && Wants(doSign, n)
                   == (if n == msg.sender as nat then msg.data[1] & 1 != 0 else old(Wants(doSign, n)))
                && Wants(doWhitelist, n)
                   == (if n == msg.sender as nat then msg.data[1] & 2 != 0 else old(Wants(doWhitelist, n)))
    {
      if msg.data[0] != 1 {
        return;
      }
      SetWants(doSign, msg.sender as nat, msg.data[1] & 1 != 0);
      SetWants(doWhitelist, msg.sender as nat, msg.data[1] & 2 != 0);
    }

    method CheckTimer(now: nat) returns (ok: bool)
      modifies this
      ensures ok == !(old(verificationOngoing) && Expired(old(timestamp), now))
      ensures if ok then unchanged(this) else
                !verificationOngoing && signingNonce == verifyingNonce == Purged()
                && unchanged(`timestamp, `pending, `nonceReceived)
      ensures View() == OnSession(keys, nodeId, old(View()), Timer(now))
    {
      if verificationOngoing {
        if now < timestamp || now > U32(timestamp + VERIFICATION_TIMEOUT_MS) {
          signingNonce, verifyingNonce := Purged(), Purged();
          verificationOngoing := false;
          return false;
        }
      }
      return true;
    }

    /** Issue a nonce, made of the given random bytes, and open a session for it. */
    method GetNonce(random: seq<bv8>, now: nat) returns (payload: seq<bv8>)
      modifies this
      ensures |payload| == MAX_PAYLOAD && payload == keys.sha(random)[..MAX_PAYLOAD]
      ensures verificationOngoing && verifyingNonce == NonceOf(payload) && timestamp == Stamp(now)
      ensures unchanged(`signingNonce, `pending, `nonceReceived)
      ensures View() == OnSession(keys, nodeId, old(View()), Issue(random, now))
    {
      payload := keys.sha(random)[..MAX_PAYLOAD];
      verifyingNonce := payload + seq(7, _ => 0xAA);
      assert payload[..MAX_PAYLOAD] == payload;
      verificationOngoing := true;
      timestamp := now;
      if U32(timestamp + VERIFICATION_TIMEOUT_MS) < now {
        timestamp := 0;
      }
    }

    method PutNonce(payload: seq<bv8>)
      requires |payload| >= MAX_PAYLOAD
      modifies this`signingNonce
      ensures signingNonce == NonceOf(payload)
    {
      signingNonce := payload[..MAX_PAYLOAD] + seq(7, _ => 0xAA);
    }

    /** Sign with the nonce received, and forget it. */
    method SignMsg(msg: Message) returns (ok: bool, signed: Message)
      requires Valid()
      modifies this`signingNonce
      ensures ok == (msg.GetLength() <= MAX_PAYLOAD - 2)
      ensures !ok ==> signed == msg && unchanged(this)
      ensures ok ==> signed == SignedMessage(keys, msg, old(signingNonce), Wants(doWhitelist, msg.destination as nat))
      ensures ok ==> signingNonce == Purged()
    {
      signed := msg;
      if msg.GetLength() > MAX_PAYLOAD - 2 {
        return false, signed;
      }
      SetSignedKeepsLength(msg, true);
      signed := SetSigned(msg, true);
      var signature := Signature(keys, signed, signingNonce);
      signingNonce := Purged();
      if Wants(doWhitelist, msg.destination as nat) {
        signature := Salted(keys, signature, msg.sender, keys.serial);
      }
      signed := WithTail(signed, signature);
      ok := true;
    }

    /** The whitelist loop: the first entry with the sender's id is the one that counts. */
    method LookUp(entries: seq<Entry>, sender: bv8) returns (serial: Option<seq<bv8>>)
      ensures serial == Listed(entries, sender)
    {
      var j := 0;
      assert entries[0..] == entries;
      while j < |entries|
        invariant j <= |entries| && Listed(entries, sender) == Listed(entries[j..], sender)
      {
        if entries[j].nodeId == sender {
          return Some(entries[j].serial);
        }
        assert entries[j..][1..] == entries[j + 1..];
        j := j + 1;
      }
      return None;
    }

    /** signerAtsha204SoftVerifyMsg: a live session accepts exactly the genuine message, and one attempt
        ends it either way. */
    method VerifyMsg(msg: Message, now: nat) returns (ok: bool)
      requires msg.GetLength() <= MAX_PAYLOAD
      modifies this
      ensures ok <==> old(verificationOngoing) && !Expired(old(timestamp), now)
                      && Genuine(keys, msg, old(verifyingNonce))
      ensures !verificationOngoing && unchanged(`pending, `nonceReceived)
      ensures timestamp == old(timestamp)
      ensures verifyingNonce ==
                if old(verificationOngoing)
                   && (Expired(old(timestamp), now) || msg.data[msg.GetLength()] == SIGNING_IDENTIFIER)
                then Purged() else old(verifyingNonce)
    {
      hide Salted, Signature, Listed, Purged, Get, Expired, OnSession;
      if !verificationOngoing {
        return false;
      }
      var live := CheckTimer(now);
      if !live {
        return false;
      }
      verificationOngoing := false;
      var n := msg.GetLength();
      if msg.data[n] != SIGNING_IDENTIFIER {
        return false;
      }
      var signature := Signature(keys, msg, verifyingNonce);
      verifyingNonce := Purged();
      if keys.whitelist.Some? {
        var serial := LookUp(keys.whitelist.value, msg.sender);
        if serial.None? {
          return false;
        }
        signature := Salted(keys, signature, msg.sender, serial.value);
      }
      var difference := Memcmp(msg.data[n..MAX_PAYLOAD], Tail(signature, n));
      ok := difference == 0;
    }

    /** signerSignMsg up to the wait: does this message have to wait for a nonce of its destination? */
    method StartSigning(msg: Message) returns (waits: bool, out: Message)
      requires Valid()
      modifies this
      ensures waits <==> Wants(doSign, msg.destination as nat) && msg.sender == nodeId && !SkipSign(msg)
      ensures waits ==> pending == msg && !nonceReceived && out == msg
      ensures !waits ==> unchanged(this)
      ensures !waits ==> out == if msg.sender == nodeId && !Wants(doSign, msg.destination as nat)
                                then SetSigned(msg, false) else msg
    {
      out, waits := msg, false;
      if Wants(doSign, msg.destination as nat) && msg.sender == nodeId {
        if !SkipSign(msg) {
          nonceReceived := false;
          pending := msg;
          waits := true;
        }
      } else if nodeId == msg.sender {
        out := SetSigned(msg, false);
      }
    }

    /** signerInternalProcessNonceResponse: a nonce from anyone but the destination is discarded. */
    method ProcessNonceResponse(sender: bv8, payload: seq<bv8>)
      requires Valid() && |payload| >= MAX_PAYLOAD
      modifies this
      ensures sender != old(pending).destination ==> unchanged(this)
      ensures sender == old(pending).destination && old(pending).GetLength() <= MAX_PAYLOAD - 2 ==>
                && nonceReceived
                && pending == SignedMessage(keys, old(pending), NonceOf(payload),
                                            Wants(doWhitelist, old(pending).destination as nat))
      ensures sender == old(pending).destination && old(pending).GetLength() > MAX_PAYLOAD - 2 ==>
                nonceReceived == old(nonceReceived) && pending == old(pending)
      ensures unchanged(`verificationOngoing, `timestamp, `verifyingNonce)
    {
      if sender == pending.destination {
        PutNonce(payload);
        var ok, signed := SignMsg(pending);
        pending := signed;
        if ok {
          nonceReceived := true;
        }
      }
    }

    /** signerVerifyMsg of a node that requires signatures: whether the message may be processed. */
    method Admit(msg: Message, now: nat) returns (ok: bool, out: Message)
      requires msg.GetLength() <= MAX_PAYLOAD
      modifies this
      ensures msg.destination != nodeId || SkipSign(msg) ==> ok && out == msg && unchanged(this)
      ensures msg.destination == nodeId && !SkipSign(msg) ==>
                && (ok <==> msg.IsSigned() && old(verificationOngoing) && !Expired(old(timestamp), now)
                            && Genuine(keys, msg, old(verifyingNonce)))
                && (msg.IsSigned() ==> !verificationOngoing)
                && (!msg.IsSigned() ==> unchanged(this))
                && out == if msg.IsSigned() then SetSigned(msg, false) else msg
      ensures View() == OnSession(keys, nodeId, old(View()), Arrives(msg, now))
      ensures Checked(nodeId, msg) ==> ok == AdmitsSigned(keys, nodeId, old(View()), Arrives(msg, now))
    {
      hide Genuine, SkipSign, SetSigned, Expired, Purged, Get, OnSession;
      ghost var s := View();
      ok, out := true, msg;
      AfterArrival(keys, nodeId, s, msg, now);
      if msg.destination == nodeId {
        if SkipSign(msg) {
          ok := true;
        } else if !msg.IsSigned() {
          ok := false;
        } else {
          ok := VerifyMsg(msg, now);
          out := SetSigned(msg, false);
        }
      }
    }
  }

  lemma AllBitsSet(k: nat)
    requires k < 8
    ensures Bit(0xFF, k)
  {
    MaskIsOneBit(k);
  }

  /** The whole handshake: the sender asks, the receiver issues a nonce, the signed message travels over
      relays and is admitted while the nonce lives; a replay of it is not. */
  method Handshake(sender: Signer, receiver: Signer, msg: Message, random: seq<bv8>, path: seq<Relay>,
                   issued: nat, now: nat)
    returns (first: bool, delivered: Message, second: bool)
    requires sender.Valid() && receiver.Valid() && sender != receiver
    requires msg.sender == sender.nodeId && msg.destination == receiver.nodeId
    requires msg.GetLength() <= MAX_PAYLOAD - 2 && !SkipSign(msg)
    requires Signer.Wants(sender.doSign, msg.destination as nat)
    requires Agree(sender.keys, receiver.keys, Signer.Wants(sender.doWhitelist, msg.destination as nat), msg.sender)
    requires issued <= now <= issued + VERIFICATION_TIMEOUT_MS < 0x1_0000_0000
    modifies sender, receiver
    ensures first && !second
    ensures delivered.data[..msg.GetLength()] == msg.data[..msg.GetLength()]
    ensures delivered.sender == msg.sender && delivered.kind == msg.kind && delivered.sensor == msg.sensor
    ensures delivered.commandAckPayload == msg.commandAckPayload && delivered.GetLength() == msg.GetLength()
  {
    hide SkipSign, SignedMessage, Genuine, Expired, Get, Set, Agree, SetSigned, NonceOf, Signer.Wants;
    ghost var salt := Signer.Wants(sender.doWhitelist, msg.destination as nat);
    var waits, out := sender.StartSigning(msg);
    var payload := receiver.GetNonce(random, issued);
    sender.ProcessNonceResponse(receiver.nodeId, payload);
    var arriving := Relayed(sender.pending, path);
    Arrival(sender.keys, receiver.keys, msg, NonceOf(payload), salt, path);
    NonceLifetime(issued, now);
    SetSignedKeepsRest(arriving);
    first, delivered := receiver.Admit(arriving, now);
    second, out := receiver.Admit(arriving, now);
  }

  lemma Arrival(sender: Keys, receiver: Keys, msg: Message, nonce: Digest, salt: bool, path: seq<Relay>)
    requires msg.GetLength() <= MAX_PAYLOAD - 2 && !SkipSign(msg) && Agree(sender, receiver, salt, msg.sender)
    ensures var a := Relayed(SignedMessage(sender, msg, nonce, salt), path);
            && a.GetLength() == msg.GetLength() && Genuine(receiver, a, nonce)
            && a.IsSigned() && !SkipSign(a)
            && a.data[..msg.GetLength()] == msg.data[..msg.GetLength()]
            && a.sender == msg.sender && a.destination == msg.destination && a.kind == msg.kind
            && a.sensor == msg.sensor && a.commandAckPayload == msg.commandAckPayload
  {
    hide Get, Set;
    var s := SignedMessage(sender, msg, nonce, salt);
    SignedIsGenuine(sender, receiver, msg, nonce, salt, path);
    SignedCovers(sender, msg, nonce, salt);
    RelayedIsLast(s, path);
    assert s.data[..msg.GetLength()] == msg.data[..msg.GetLength()];
  }

  lemma SetSignedKeepsRest(m: Message)
    ensures var n := SetSigned(m, false);
            n == m.(versionLength := n.versionLength) && n.GetLength() == m.GetLength()
  {
    SetSignedKeepsLength(m, false);
  }
}
