/**
 The transport of a node: the state machine that looks for a parent, an id and an uplink, the routing
 table, and what a node does with every message it hears.
 */
module TransportSpec {
  import opened Words

  const AUTO: byte := 255
  const GATEWAY_ADDRESS: byte := 0
  const BROADCAST_ADDRESS: byte := 255
  const DISTANCE_INVALID: byte := 255
  const INVALID_HOPS: byte := 255
  const MAX_HOPS: byte := 254
  const STATE_TIMEOUT: nat := 2_000
  const STATE_RETRIES: nat := 3
  const FAILURE_TIMEOUT: nat := 10_000
  const EXTENDED_FAILURE_TIMEOUT: nat := 60_000
  const MAX_FAILURES: nat := 7
  const UPLINK_CHECK_INTERVAL: nat := 10_000
  const DISCOVERY_INTERVAL: nat := 1_200_000

  /** What is fixed when a node is built; `acked(k)` is what its radio answers for the k-th frame it sends. */
  datatype Setup = Setup(gateway: bool, repeater: bool, nodeId: byte, parentId: byte, parentIsStatic: bool,
                         uplinkCheck: bool, acked: nat -> bool)
  {
    /** A gateway with a radio repeats, and a static parent is a given one. */
    predicate Valid() {
      (gateway ==> repeater) && (parentIsStatic ==> parentId != AUTO)
    }

    function MaxTxFailures(): nat {
      if repeater then 10 else 5
    }
  }

  datatype Kind =
    | Ping | Pong | FindParentRequest | FindParentResponse | IdRequest | IdResponse
    | DiscoverRequest | DiscoverResponse | OtherInternal | Application
  {
    predicate Internal() {
      !Application?
    }
  }

  /** What the transport reads of a message that has passed the length, version and signature checks;
      `value` is its payload read as a byte. */
  datatype Packet = Packet(last: byte, sender: byte, destination: byte, kind: Kind, wantsAck: bool, isAck: bool,
                           value: byte)

  /** A packet on the air, and the station its radio frame is addressed to. */
  datatype Frame = Frame(to: byte, packet: Packet)

  datatype NodeConfig = NodeConfig(nodeId: byte, parent: byte, distance: byte)

  datatype Stage = Off | Init | Parent | Id | Uplink | Ready | Failure

  datatype Machine = Machine(stage: Stage, entered: nat, lastCheck: nat, lastDiscovery: nat, finding: bool,
                             preferredFound: bool, uplinkOk: bool, pingActive: bool, active: bool, retries: nat,
                             failedTx: nat, failures: nat, received: bool, pong: byte)

  type Table = s: seq<byte> | |s| == 256 witness seq(256, _ => 0)

  /** The whole state: the configuration and its copy in EEPROM, the machine, the routing table, the
      frames sent so far, and the `last` field left in the buffer for outgoing messages. */
  datatype Node = Node(config: NodeConfig, stored: NodeConfig, sm: Machine, routes: Table, air: seq<Frame>, spare: byte)

  function PowerOn(stored: NodeConfig, routes: Table): Node {
    Node(NodeConfig(0, 0, 0), stored,
         Machine(Off, 0, 0, 0, false, false, false, false, false, 0, 0, 0, false, 0), routes, [], 0)
  }

  // ----- Sending -----

  function NextHop(u: Setup, parent: byte, routes: Table, destination: byte, last: byte): byte {
    if destination == GATEWAY_ADDRESS then parent
    else if destination == BROADCAST_ADDRESS then BROADCAST_ADDRESS
    else if !u.repeater then parent
    else if routes[destination] != AUTO then routes[destination]
    else if !u.gateway && last != parent then parent
    else destination
  }

  /** While a parent is being looked for, only broadcasts go out. */
  predicate Blocked(n: Node, m: Packet) {
    n.sm.finding && m.destination != BROADCAST_ADDRESS
  }

  function Hop(u: Setup, n: Node, m: Packet): byte {
    NextHop(u, n.config.parent, n.routes, m.destination, m.last)
  }

  /** Whether the frame counts as sent. */
  predicate Acked(u: Setup, n: Node, m: Packet) {
    u.acked(|n.air|) || Hop(u, n, m) == BROADCAST_ADDRESS
  }

  function Counted(u: Setup, n: Node, m: Packet): Machine {
    if u.gateway || Hop(u, n, m) != n.config.parent then n.sm
    else n.sm.(failedTx := if Acked(u, n, m) then 0 else (n.sm.failedTx + 1) % 16)
  }

  function Route(u: Setup, n: Node, m: Packet): Node {
    if Blocked(n, m) then n
    else n.(air := n.air + [Frame(Hop(u, n, m), m.(last := n.config.nodeId))], sm := Counted(u, n, m))
  }

  /** Routes a message that stands in the buffer for outgoing messages. */
  function RouteSpare(u: Setup, n: Node, m: Packet): Node {
    Route(u, n, m).(spare := if Blocked(n, m) then m.last else n.config.nodeId)
  }

  function Built(n: Node, destination: byte, kind: Kind, value: byte): Packet {
    Packet(n.spare, n.config.nodeId, destination, kind, false, false, value)
  }

  function Post(u: Setup, n: Node, destination: byte, kind: Kind, value: byte): Node {
    RouteSpare(u, n, Built(n, destination, kind, value))
  }

  // ----- The state machine -----

  function Assigned(n: Node, id: byte): Node {
    if id == GATEWAY_ADDRESS || id == AUTO then n.(config := n.config.(nodeId := AUTO))
    else n.(config := n.config.(nodeId := id), stored := n.stored.(nodeId := id))
  }

  function EnterInit(n: Node): Node {
    n.(sm := n.sm.(pingActive := false, active := false, lastCheck := 0, lastDiscovery := 0), config := n.stored)
  }

  function EnterParent(u: Setup, n: Node): Node {
    var sm := n.sm.(uplinkOk := false, preferredFound := false, finding := !u.parentIsStatic);
    if u.parentIsStatic then
      n.(sm := sm, config := n.config.(distance := 1, parent := u.parentId), stored := n.stored.(parent := u.parentId))
    else
      Post(u, n.(sm := sm, config := n.config.(distance := DISTANCE_INVALID, parent := AUTO)), BROADCAST_ADDRESS,
           FindParentRequest, 0)
  }

  function EnterId(u: Setup, n: Node): Node {
    if n.config.nodeId == AUTO then Post(u, n, GATEWAY_ADDRESS, IdRequest, 0) else n
  }

  function EnterUplink(u: Setup, n: Node): Node {
    if u.uplinkCheck then
      Post(u, n.(sm := n.sm.(pong := INVALID_HOPS, pingActive := true)), GATEWAY_ADDRESS, Ping, 1)
    else n
  }

  function EnterReady(n: Node): Node {
    n.(sm := n.sm.(uplinkOk := true, failures := 0, failedTx := 0))
  }

  function EnterFailure(n: Node): Node {
    n.(sm := n.sm.(failures := if n.sm.failures < MAX_FAILURES then (n.sm.failures + 1) % 8 else n.sm.failures,
                   uplinkOk := false, active := false))
  }

  function Transition(u: Setup, n: Node): Node {
    match n.sm.stage
    case Off => n
    case Init => EnterInit(n)
    case Parent => EnterParent(u, n)
    case Id => EnterId(u, n)
    case Uplink => EnterUplink(u, n)
    case Ready => EnterReady(n)
    case Failure => EnterFailure(n)
  }

  /** Entering a stage anew counts a retry, in three bits. */
  function Placed(sm: Machine, stage: Stage): Machine {
    if sm.stage != stage then sm.(stage := stage, retries := 0)
    else sm.(retries := (sm.retries + 1) % 8)
  }

  function Switch(u: Setup, n: Node, stage: Stage, now: nat): Node {
    var t := Transition(u, n.(sm := Placed(n.sm, stage)));
    t.(sm := t.sm.(entered := now))
  }

  function TimeInState(n: Node, now: nat): nat {
    U32(now - n.sm.entered)
  }

  function UpdateInit(u: Setup, n: Node, now: nat, radioOk: bool): Node {
    if !radioOk then Switch(u, n, Failure, now)
    else
      var on := n.(sm := n.sm.(active := true));
      if u.gateway then Switch(u, on.(config := NodeConfig(GATEWAY_ADDRESS, GATEWAY_ADDRESS, 0)), Ready, now)
      else
        var named :=
          if u.nodeId == AUTO then on
          else on.(config := on.config.(nodeId := u.nodeId), stored := on.stored.(nodeId := u.nodeId));
        if named.config.nodeId == AUTO then Switch(u, named, Parent, now)
        else if named.config.nodeId == GATEWAY_ADDRESS then Switch(u, Assigned(named, GATEWAY_ADDRESS), Failure, now)
        else Switch(u, Assigned(named, named.config.nodeId), Parent, now)
  }

  function UpdateParent(u: Setup, n: Node, now: nat): Node {
    if u.parentIsStatic then Switch(u, n, Id, now)
    else if TimeInState(n, now) <= STATE_TIMEOUT && !n.sm.preferredFound then n
    else if n.config.parent != AUTO then Switch(u, n.(sm := n.sm.(finding := false)), Id, now)
    else if n.sm.retries < STATE_RETRIES then Switch(u, n, Parent, now)
    else Switch(u, n, Failure, now)
  }

  function UpdateId(u: Setup, n: Node, now: nat): Node {
    if n.config.nodeId != AUTO then Switch(u, n, Uplink, now)
    else if TimeInState(n, now) <= STATE_TIMEOUT then n
    else if n.sm.retries < STATE_RETRIES then Switch(u, n, Id, now)
    else Switch(u, n, Failure, now)
  }

  function UpdateUplink(u: Setup, n: Node, now: nat): Node {
    if !u.uplinkCheck then Switch(u, n, Ready, now)
    else if n.sm.pong != INVALID_HOPS then
      Switch(u, n.(sm := n.sm.(lastCheck := now), config := n.config.(distance := n.sm.pong)), Ready, now)
    else if TimeInState(n, now) <= STATE_TIMEOUT then n
    else if n.sm.retries < STATE_RETRIES then Switch(u, n, Uplink, now)
    else Switch(u, n.(sm := n.sm.(pingActive := false)), Parent, now)
  }

  function UpdateReady(u: Setup, n: Node, now: nat): Node {
    if u.gateway then
      if U32(now - n.sm.lastDiscovery) > DISCOVERY_INTERVAL then
        Post(u, n.(sm := n.sm.(lastDiscovery := now)), BROADCAST_ADDRESS, DiscoverRequest, 0)
      else n
    else if n.sm.failedTx <= u.MaxTxFailures() then n
    else if u.parentIsStatic then n.(sm := n.sm.(failedTx := 0))
    else Switch(u, n, Parent, now)
  }

  function UpdateFailure(u: Setup, n: Node, now: nat): Node {
    if TimeInState(n, now) > (if n.sm.failures == MAX_FAILURES then EXTENDED_FAILURE_TIMEOUT else FAILURE_TIMEOUT)
    then Switch(u, n, Init, now)
    else n
  }

  function Update(u: Setup, n: Node, now: nat, radioOk: bool): Node {
    match n.sm.stage
    case Off => n
    case Init => UpdateInit(u, n, now, radioOk)
    case Parent => UpdateParent(u, n, now)
    case Id => UpdateId(u, n, now)
    case Uplink => UpdateUplink(u, n, now)
    case Ready => UpdateReady(u, n, now)
    case Failure => UpdateFailure(u, n, now)
  }

  // ----- Pinging; `reply` is the hop count heard within two seconds, or INVALID_HOPS -----

  function Pinged(u: Setup, n: Node, target: byte, reply: byte): Node {
    if n.sm.pingActive then n
    else if target == n.config.nodeId then n.(sm := n.sm.(pong := 0, pingActive := false))
    else
      var sent := Post(u, n.(sm := n.sm.(pong := INVALID_HOPS, pingActive := true)), target, Ping, 1);
      sent.(sm := sent.sm.(pong := reply, pingActive := false))
  }

  function PingResult(n: Node, target: byte, reply: byte): byte {
    if n.sm.pingActive then INVALID_HOPS else if target == n.config.nodeId then 0 else reply
  }

  predicate CheckedLately(n: Node, force: bool, now: nat) {
    !force && U32(now - n.sm.lastCheck) < UPLINK_CHECK_INTERVAL
  }

  predicate UplinkFine(n: Node, force: bool, now: nat, reply: byte) {
    CheckedLately(n, force, now) || PingResult(n, GATEWAY_ADDRESS, reply) != INVALID_HOPS
  }

  function Checked(u: Setup, n: Node, force: bool, now: nat, reply: byte): Node {
    if CheckedLately(n, force, now) then n
    else
      var hops := PingResult(n, GATEWAY_ADDRESS, reply);
      var pinged := Pinged(u, n, GATEWAY_ADDRESS, reply);
      if hops == INVALID_HOPS then pinged
      else pinged.(sm := pinged.sm.(lastCheck := now), config := pinged.config.(distance := hops))
  }

  // ----- Receiving -----

  /** The routing table learns where a sender is from frames that do not come from the parent. */
  function Learned(u: Setup, config: NodeConfig, routes: Table, m: Packet): Table {
    if u.repeater && (u.gateway || m.last != config.parent) && m.sender != config.nodeId
    then routes[m.sender := m.last]
    else routes
  }

  function AckOf(n: Node, m: Packet): Packet {
    m.(wantsAck := false, isAck := true, sender := n.config.nodeId, destination := m.sender)
  }

  function Acknowledged(u: Setup, n: Node, m: Packet): Node {
    if !m.wantsAck then n
    else if n.sm.uplinkOk then RouteSpare(u, n, AckOf(n, m))
    else n.(spare := m.last)
  }

  /** A reported distance that is good enough to change parents for, and the distance then taken. */
  predicate Better(u: Setup, n: Node, sender: byte, distance: byte) {
    && distance != DISTANCE_INVALID && !n.sm.preferredFound
    && ((distance + 1 != DISTANCE_INVALID && distance + 1 < n.config.distance) || Preferred(u, sender))
  }

  predicate Preferred(u: Setup, sender: byte) {
    u.parentId != AUTO && sender == u.parentId
  }

  function Reported(u: Setup, n: Node, sender: byte, distance: byte): Node {
    if !Better(u, n, sender, distance) then n
    else n.(config := n.config.(distance := distance + 1, parent := sender),
            sm := n.sm.(preferredFound := n.sm.preferredFound || Preferred(u, sender)))
  }

  /** An internal message to this node that is no acknowledgement. */
  function Handled(u: Setup, n: Node, m: Packet): Node {
    match m.kind
    case IdResponse => if !u.gateway && u.nodeId == AUTO then Assigned(n, m.value) else n
    case FindParentResponse =>
      if !u.gateway && !u.parentIsStatic && n.sm.finding then Reported(u, n, m.sender, m.value) else n
    case Ping => Post(u, n, m.sender, Pong, 1)
    case Pong => if n.sm.pingActive then n.(sm := n.sm.(pingActive := false, pong := m.value)) else n
    case _ => n
  }

  function Addressed(u: Setup, n: Node, m: Packet): Node {
    var acked := Acknowledged(u, n, m);
    if m.isAck then acked else Handled(u, acked, m)
  }

  /** A repeater that is not the requester's child answers a request for parents if its uplink works. */
  function Offered(u: Setup, n: Node, m: Packet, now: nat, reply: byte): Node {
    if !u.repeater || m.sender == n.config.parent then n
    else
      var checked := Checked(u, n, false, now, reply);
      if !UplinkFine(n, false, now, reply) then checked
      else Post(u, checked.(sm := checked.sm.(lastCheck := now)), m.sender, FindParentResponse, checked.config.distance)
  }

  function Forwarded(u: Setup, n: Node, m: Packet): Node {
    if u.repeater && m.last == n.config.parent && m.sender != n.config.nodeId && n.sm.uplinkOk
    then Route(u, n, m)
    else n
  }

  function Broadcasted(u: Setup, n: Node, m: Packet, now: nat, reply: byte): Node {
    if n.sm.uplinkOk && m.kind == FindParentRequest then Offered(u, n, m, now, reply)
    else if m.kind == FindParentResponse then n
    else if !u.gateway && m.kind == DiscoverRequest && m.last == n.config.parent then
      Forwarded(u, Post(u, n, m.sender, DiscoverResponse, n.config.parent), m)
    else Forwarded(u, n, m)
  }

  /** Pings and pongs count the hops they make, up to MAX_HOPS. */
  function Stepped(m: Packet): Packet {
    if (m.kind == Ping || m.kind == Pong) && m.value != MAX_HOPS then m.(value := U8(m.value + 1)) else m
  }

  function Relayed(u: Setup, n: Node, m: Packet): Node {
    if u.repeater && n.sm.uplinkOk then Route(u, n, Stepped(m)) else n
  }

  function Process(u: Setup, n: Node, m: Packet, now: nat, reply: byte): Node {
    var heard := n.(routes := Learned(u, n.config, n.routes, m), sm := n.sm.(received := true));
    if m.destination == n.config.nodeId then Addressed(u, heard, m)
    else if m.destination == BROADCAST_ADDRESS then Broadcasted(u, heard, m, now, reply)
    else Relayed(u, heard, m)
  }

  // ----- Runs -----

  /** A packet heard, when, and the answer to the uplink check it may lead to. */
  datatype Hearing = Hearing(m: Packet, now: nat, reply: byte)

  datatype Event =
    | Tick(now: nat, radioOk: bool)                    // transportUpdateSM
    | Hear(h: Hearing)                                 // transportProcessMessage
    | Sanity(fine: bool, now: nat)                     // transportInvokeSanityCheck
    | Send(m: Packet)                                  // transportSendRoute
    | PingNode(target: byte, reply: byte)              // transportPingNode
    | CheckUplink(force: bool, now: nat, reply: byte)  // transportCheckUplink
    | ClearRoutes                                      // transportClearRoutingTable

  /** An inactive transport neither hears messages nor checks its radio. */
  function Step(u: Setup, n: Node, e: Event): Node {
    match e
    case Tick(now, radioOk) => Update(u, n, now, radioOk)
    case Hear(h) => if n.sm.active then Process(u, n, h.m, h.now, h.reply) else n
    case Sanity(fine, now) => if n.sm.active && !fine then Switch(u, n, Failure, now) else n
    case Send(m) => if n.sm.uplinkOk then Route(u, n, m) else n
    case PingNode(target, reply) => Pinged(u, n, target, reply)
    case CheckUplink(force, now, reply) => Checked(u, n, force, now, reply)
    case ClearRoutes => n.(routes := seq(256, _ => BROADCAST_ADDRESS))
  }

  function Run(u: Setup, n: Node, events: seq<Event>): Node
    decreases |events|
  {
    if events == [] then n else Run(u, Step(u, n, events[0]), events[1..])
  }

  function Boot(u: Setup, stored: NodeConfig, routes: Table, now: nat): Node {
    Switch(u, PowerOn(stored, routes), Init, now)
  }

  predicate Operating(s: Stage) {
    s == Parent || s == Id || s == Uplink || s == Ready
  }

  predicate HasParent(s: Stage) {
    s == Id || s == Uplink || s == Ready
  }

  /** What holds between events. Each part is a promise: the uplink flag is the state, a node past the
      search has a parent, a ready node knows its distance, the bit-field counters never wrap, and no
      ping is left open in a ready node. */
  predicate Consistent(u: Setup, n: Node) {
    var sm := n.sm;
    && sm.stage != Off
    && (sm.uplinkOk <==> sm.stage == Ready)
    && (sm.active <==> Operating(sm.stage))
    && (HasParent(sm.stage) ==> !sm.finding && n.config.parent != AUTO)
    && (sm.stage == Parent && u.parentIsStatic ==> n.config.parent != AUTO)
    && (sm.stage == Ready && (u.uplinkCheck || u.gateway) ==> n.config.distance != DISTANCE_INVALID)
    && sm.retries <= STATE_RETRIES && (sm.retries > 0 ==> sm.stage == Parent || sm.stage == Id || sm.stage == Uplink)
    && sm.failures <= MAX_FAILURES && sm.failedTx < 16
    && (sm.pingActive ==> u.uplinkCheck && sm.pong == INVALID_HOPS && (sm.stage == Uplink || sm.stage == Failure))
    && (sm.finding ==> !u.parentIsStatic && !u.gateway)
    && (u.gateway ==> (sm.stage == Init || sm.stage == Ready || sm.stage == Failure) &&
                      (sm.stage == Ready ==> n.config == NodeConfig(GATEWAY_ADDRESS, GATEWAY_ADDRESS, 0)))
  }

  /** Sending changes nothing but the air, the buffer and the failure counter. */
  lemma RouteKeeps(u: Setup, n: Node, m: Packet)
    ensures Route(u, n, m).config == n.config && Route(u, n, m).stored == n.stored
    ensures Route(u, n, m).routes == n.routes
    ensures n.sm.failedTx < 16 ==> Route(u, n, m).sm.failedTx < 16
    ensures Route(u, n, m).sm == n.sm.(failedTx := Route(u, n, m).sm.failedTx)
    ensures Route(u, n, m).air == if Blocked(n, m) then n.air else
              n.air + [Frame(NextHop(u, n.config.parent, n.routes, m.destination, m.last), m.(last := n.config.nodeId))]
    ensures Route(u, n, m).spare == n.spare
  {
  }

  lemma SwitchKeepsConsistent(u: Setup, n: Node, stage: Stage, now: nat)
    requires u.Valid() && n.sm.failures <= MAX_FAILURES && n.sm.failedTx < 16
    requires stage != Off && (stage == n.sm.stage ==> n.sm.retries < STATE_RETRIES)
    requires stage == n.sm.stage ==> stage == Parent || stage == Id || stage == Uplink
    requires stage == Init ==> !n.sm.uplinkOk
    requires stage == Parent ==> n.sm.active && !u.gateway && !n.sm.pingActive
    requires stage == Id ==> n.sm.active && !n.sm.uplinkOk && !u.gateway && !n.sm.pingActive
    requires stage == Uplink ==> n.sm.active && !n.sm.uplinkOk && !u.gateway
    requires stage == Ready ==> n.sm.active && !n.sm.pingActive
    requires stage == Ready && u.gateway ==> n.config == NodeConfig(GATEWAY_ADDRESS, GATEWAY_ADDRESS, 0)
    requires stage == Ready && u.uplinkCheck ==> n.config.distance != DISTANCE_INVALID
    requires n.sm.pingActive ==> u.uplinkCheck && n.sm.pong == INVALID_HOPS
    requires HasParent(stage) ==> !n.sm.finding && n.config.parent != AUTO
    requires n.sm.finding ==> !u.parentIsStatic && !u.gateway
    ensures Consistent(u, Switch(u, n, stage, now))
  {
    hide Post;
    var placed := n.(sm := Placed(n.sm, stage));
    match stage
    case Parent =>
      var sm := placed.sm.(uplinkOk := false, preferredFound := false, finding := true);
      PostKeeps(u, placed.(sm := sm, config := n.config.(distance := DISTANCE_INVALID, parent := AUTO)),
                BROADCAST_ADDRESS, FindParentRequest, 0);
    case Id => PostKeeps(u, placed, GATEWAY_ADDRESS, IdRequest, 0);
    case Uplink =>
      PostKeeps(u, placed.(sm := placed.sm.(pong := INVALID_HOPS, pingActive := true)), GATEWAY_ADDRESS, Ping, 1);
    case _ =>
  }

  lemma UpdateInitKeeps(u: Setup, n: Node, now: nat, radioOk: bool)
    requires u.Valid() && Consistent(u, n) && n.sm.stage == Init
    ensures Consistent(u, UpdateInit(u, n, now, radioOk))
  {
    hide Switch;
    if !radioOk {
      SwitchKeepsConsistent(u, n, Failure, now);
    } else {
      var on := n.(sm := n.sm.(active := true));
      if u.gateway {
        SwitchKeepsConsistent(u, on.(config := NodeConfig(GATEWAY_ADDRESS, GATEWAY_ADDRESS, 0)), Ready, now);
      } else {
        var named :=
          if u.nodeId == AUTO then on
          else on.(config := on.config.(nodeId := u.nodeId), stored := on.stored.(nodeId := u.nodeId));
        SwitchKeepsConsistent(u, named, Parent, now);
        SwitchKeepsConsistent(u, Assigned(named, GATEWAY_ADDRESS), Failure, now);
        SwitchKeepsConsistent(u, Assigned(named, named.config.nodeId), Parent, now);
      }
    }
  }

  lemma UpdateUplinkKeeps(u: Setup, n: Node, now: nat)
    requires u.Valid() && Consistent(u, n) && n.sm.stage == Uplink
    ensures Consistent(u, UpdateUplink(u, n, now))
  {
    hide Switch;
    if !u.uplinkCheck {
      SwitchKeepsConsistent(u, n, Ready, now);
    } else if n.sm.pong != INVALID_HOPS {
      var up := n.(sm := n.sm.(lastCheck := now), config := n.config.(distance := n.sm.pong));
      SwitchKeepsConsistent(u, up, Ready, now);
    } else if n.sm.retries < STATE_RETRIES {
      SwitchKeepsConsistent(u, n, Uplink, now);
    } else {
      SwitchKeepsConsistent(u, n.(sm := n.sm.(pingActive := false)), Parent, now);
    }
  }

  lemma UpdateKeepsConsistent(u: Setup, n: Node, now: nat, radioOk: bool)
    requires u.Valid() && Consistent(u, n)
    ensures Consistent(u, Update(u, n, now, radioOk))
  {
    hide Switch, Route;
    match n.sm.stage
    case Init => UpdateInitKeeps(u, n, now, radioOk);
    case Parent =>
      if n.sm.retries < STATE_RETRIES { SwitchKeepsConsistent(u, n, Parent, now); }
      SwitchKeepsConsistent(u, n, Failure, now);
      if n.config.parent != AUTO {
        if u.parentIsStatic { SwitchKeepsConsistent(u, n, Id, now); }
        SwitchKeepsConsistent(u, n.(sm := n.sm.(finding := false)), Id, now);
      }
    case Id =>
      SwitchKeepsConsistent(u, n, Uplink, now);
      if n.sm.retries < STATE_RETRIES { SwitchKeepsConsistent(u, n, Id, now); }
      SwitchKeepsConsistent(u, n, Failure, now);
    case Uplink => UpdateUplinkKeeps(u, n, now);
    case Ready =>
      if u.gateway {
        var due := n.(sm := n.sm.(lastDiscovery := now));
        RouteKeeps(u, due, Built(due, BROADCAST_ADDRESS, DiscoverRequest, 0));
      } else {
        SwitchKeepsConsistent(u, n, Parent, now);
      }
    case Failure =>
      SwitchKeepsConsistent(u, n, Init, now);
    case _ =>
  }

  lemma PostKeeps(u: Setup, n: Node, destination: byte, kind: Kind, value: byte)
    ensures Post(u, n, destination, kind, value).config == n.config
    ensures n.sm.failedTx < 16 ==> Post(u, n, destination, kind, value).sm.failedTx < 16
    ensures Post(u, n, destination, kind, value).sm ==
              n.sm.(failedTx := Post(u, n, destination, kind, value).sm.failedTx)
  {
    RouteKeeps(u, n, Built(n, destination, kind, value));
  }

  lemma PingKeepsConsistent(u: Setup, n: Node, target: byte, reply: byte)
    requires u.Valid() && Consistent(u, n)
    ensures Consistent(u, Pinged(u, n, target, reply))
    ensures Pinged(u, n, target, reply).sm.stage == n.sm.stage && Pinged(u, n, target, reply).config == n.config
  {
    hide Post;
    PostKeeps(u, n.(sm := n.sm.(pong := INVALID_HOPS, pingActive := true)), target, Ping, 1);
  }

  lemma CheckKeepsConsistent(u: Setup, n: Node, force: bool, now: nat, reply: byte)
    requires u.Valid() && Consistent(u, n)
    ensures Consistent(u, Checked(u, n, force, now, reply))
    ensures Checked(u, n, force, now, reply).sm.stage == n.sm.stage
  {
    hide Pinged;
    PingKeepsConsistent(u, n, GATEWAY_ADDRESS, reply);
  }

  lemma AddressedKeepsConsistent(u: Setup, n: Node, m: Packet)
    requires u.Valid() && Consistent(u, n) && n.sm.active
    ensures Consistent(u, Addressed(u, n, m))
  {
    hide Post, Route;
    RouteKeeps(u, n, AckOf(n, m));
    var acked := Acknowledged(u, n, m);
    PostKeeps(u, acked, m.sender, Pong, 1);
  }

  lemma BroadcastedKeepsConsistent(u: Setup, n: Node, m: Packet, now: nat, reply: byte)
    requires u.Valid() && Consistent(u, n) && n.sm.active
    ensures Consistent(u, Broadcasted(u, n, m, now, reply))
  {
    hide Post, Route, Checked;
    if n.sm.uplinkOk && m.kind == FindParentRequest {
      CheckKeepsConsistent(u, n, false, now, reply);
      var checked := Checked(u, n, false, now, reply);
      PostKeeps(u, checked.(sm := checked.sm.(lastCheck := now)), m.sender, FindParentResponse,
                checked.config.distance);
    } else {
      PostKeeps(u, n, m.sender, DiscoverResponse, n.config.parent);
      RouteKeeps(u, n, m);
      RouteKeeps(u, Post(u, n, m.sender, DiscoverResponse, n.config.parent), m);
    }
  }

  lemma StepKeepsConsistent(u: Setup, n: Node, e: Event)
    requires u.Valid() && Consistent(u, n)
    ensures Consistent(u, Step(u, n, e))
  {
    hide Update, Addressed, Broadcasted, Route, Switch, Pinged, Checked;
    match e
    case Tick(now, radioOk) => UpdateKeepsConsistent(u, n, now, radioOk);
    case Hear(h) =>
      if n.sm.active {
        var Hearing(m, now, reply) := h;
        var heard := n.(routes := Learned(u, n.config, n.routes, m), sm := n.sm.(received := true));
        AddressedKeepsConsistent(u, heard, m);
        BroadcastedKeepsConsistent(u, heard, m, now, reply);
        RouteKeeps(u, heard, Stepped(m));
      }
    case Sanity(fine, now) => SwitchKeepsFailure(u, n, now);
    case Send(m) => RouteKeeps(u, n, m);
    case PingNode(target, reply) => PingKeepsConsistent(u, n, target, reply);
    case CheckUplink(force, now, reply) => CheckKeepsConsistent(u, n, force, now, reply);
    case ClearRoutes =>
  }

  lemma SwitchKeepsFailure(u: Setup, n: Node, now: nat)
    requires u.Valid() && Consistent(u, n)
    ensures n.sm.active ==> Consistent(u, Switch(u, n, Failure, now))
  {
    if n.sm.active { SwitchKeepsConsistent(u, n, Failure, now); }
  }

  /** In every state a node can reach from power-on, whatever it was configured to, whatever it hears and
      whenever, the invariant holds. */
  lemma {:induction false} RunKeepsConsistent(u: Setup, n: Node, events: seq<Event>)
    requires u.Valid() && Consistent(u, n)
    ensures Consistent(u, Run(u, n, events))
    decreases |events|
  {
    if events != [] {
      hide Consistent, Step;
      StepKeepsConsistent(u, n, events[0]);
      RunKeepsConsistent(u, Step(u, n, events[0]), events[1..]);
    }
  }

  lemma ReachableIsConsistent(u: Setup, stored: NodeConfig, routes: Table, now: nat, events: seq<Event>)
    requires u.Valid()
    ensures Consistent(u, Run(u, Boot(u, stored, routes, now), events))
  {
    SwitchKeepsConsistent(u, PowerOn(stored, routes), Init, now);
    RunKeepsConsistent(u, Boot(u, stored, routes, now), events);
  }

  // ----- Choosing a parent -----

  datatype Report = Report(sender: byte, distance: byte)

  predicate IsReport(n: Node, m: Packet) {
    m.destination == n.config.nodeId && !m.isAck && m.kind == FindParentResponse
  }

  /** The answers to its request that a node takes in while it processes a run of messages. */
  function Reports(u: Setup, n: Node, hs: seq<Hearing>): seq<Report>
    decreases |hs|
  {
    if hs == [] then []
    else (if IsReport(n, hs[0].m) then [Report(hs[0].m.sender, hs[0].m.value)] else []) +
         Reports(u, Process(u, n, hs[0].m, hs[0].now, hs[0].reply), hs[1..])
  }

  function Processed(u: Setup, n: Node, hs: seq<Hearing>): Node
    decreases |hs|
  {
    if hs == [] then n else Processed(u, Process(u, n, hs[0].m, hs[0].now, hs[0].reply), hs[1..])
  }

  predicate Searching(u: Setup, n: Node) {
    !u.gateway && !u.parentIsStatic && n.sm.finding && !n.sm.uplinkOk && n.sm.stage == Parent
  }

  /** k is the first of the reports that are least, and near enough. */
  predicate FirstLeast(rs: seq<Report>, k: nat) {
    && k < |rs| && rs[k].distance < MAX_HOPS
    && (forall i :: 0 <= i < |rs| ==> rs[k].distance <= rs[i].distance)
    && (forall i :: 0 <= i < k ==> rs[k].distance < rs[i].distance)
  }

  predicate FirstPreferred(u: Setup, rs: seq<Report>, k: nat) {
    && k < |rs| && Preferred(u, rs[k].sender) && rs[k].distance != DISTANCE_INVALID
    && (forall i :: 0 <= i < k ==> !Preferred(u, rs[i].sender) || rs[i].distance == DISTANCE_INVALID)
  }

  predicate NonePreferred(u: Setup, rs: seq<Report>) {
    forall i :: 0 <= i < |rs| ==> !Preferred(u, rs[i].sender) || rs[i].distance == DISTANCE_INVALID
  }

  predicate NoneNear(rs: seq<Report>) {
    forall i :: 0 <= i < |rs| ==> MAX_HOPS <= rs[i].distance
  }

  /** A message heard during the search changes the parent only if it is a report. */
  lemma ReportOrNot(u: Setup, n: Node, m: Packet, now: nat, reply: byte)
    requires Searching(u, n)
    ensures var p := Process(u, n, m, now, reply);
            && Searching(u, p)
            && if IsReport(n, m) && Better(u, n, m.sender, m.value)
               then p.config.parent == m.sender && p.config.distance == m.value + 1 &&
                    p.sm.preferredFound == (n.sm.preferredFound || Preferred(u, m.sender))
               else p.config.parent == n.config.parent && p.config.distance == n.config.distance &&
                    p.sm.preferredFound == n.sm.preferredFound
  {
    hide Route, Post;
    var heard := n.(routes := Learned(u, n.config, n.routes, m), sm := n.sm.(received := true));
    PostKeeps(u, Acknowledged(u, heard, m), m.sender, Pong, 1);
    PostKeeps(u, heard, m.sender, DiscoverResponse, n.config.parent);
  }

  /** The node keeps the preferred parent once it has it. */
  lemma {:induction false} PreferredStays(u: Setup, n: Node, hs: seq<Hearing>)
    requires Searching(u, n) && n.sm.preferredFound
    ensures Processed(u, n, hs).config.parent == n.config.parent
    ensures Processed(u, n, hs).config.distance == n.config.distance
    ensures Processed(u, n, hs).sm.preferredFound
    decreases |hs|
  {
    if hs != [] {
      hide Process;
      ReportOrNot(u, n, hs[0].m, hs[0].now, hs[0].reply);
      PreferredStays(u, Process(u, n, hs[0].m, hs[0].now, hs[0].reply), hs[1..]);
    }
  }

  /** The k-th report won over what the node had at the start. */
  predicate Won(start: NodeConfig, end: NodeConfig, rs: seq<Report>, k: nat) {
    && FirstLeast(rs, k) && rs[k].distance + 1 < start.distance
    && end.parent == rs[k].sender && end.distance == rs[k].distance + 1
  }

  predicate Kept(start: NodeConfig, end: NodeConfig, rs: seq<Report>) {
    && end.parent == start.parent && end.distance == start.distance
    && (forall i :: 0 <= i < |rs| ==> start.distance <= rs[i].distance + 1 || MAX_HOPS <= rs[i].distance)
  }

  ghost predicate Nearest(start: NodeConfig, end: NodeConfig, rs: seq<Report>) {
    Kept(start, end, rs) || exists k: nat :: Won(start, end, rs, k)
  }

  predicate Nearer(start: NodeConfig, r: Report) {
    r.distance < MAX_HOPS && r.distance + 1 < start.distance
  }

  lemma OneMoreReport(start: NodeConfig, next: NodeConfig, end: NodeConfig, r: Report, rest: seq<Report>)
    requires next.parent == if Nearer(start, r) then r.sender else start.parent
    requires next.distance == if Nearer(start, r) then r.distance + 1 else start.distance
    requires Nearest(next, end, rest)
    ensures Nearest(start, end, [r] + rest)
  {
    var rs := [r] + rest;
    if Kept(next, end, rest) {
      if Nearer(start, r) {
        forall i | 0 <= i < |rs|
          ensures rs[0].distance <= rs[i].distance
        {
          if i > 0 { assert rs[i] == rest[i - 1]; }
        }
        assert Won(start, end, rs, 0);
      } else {
        forall i | 0 <= i < |rs|
          ensures start.distance <= rs[i].distance + 1 || MAX_HOPS <= rs[i].distance
        {
          if i > 0 { assert rs[i] == rest[i - 1]; }
        }
        assert Kept(start, end, rs);
      }
    } else {
      var k: nat :| Won(next, end, rest, k);
      forall i | 0 <= i < |rs|
        ensures rest[k].distance <= rs[i].distance && (i < k + 1 ==> rest[k].distance < rs[i].distance)
      {
        if i > 0 { assert rs[i] == rest[i - 1]; }
      }
      assert rs[k + 1] == rest[k];
      assert Won(start, end, rs, k + 1);
    }
  }

  /** As long as the preferred parent does not report, the reports nearer than what the node has decide. */
  lemma {:induction false} NearestWins(u: Setup, n: Node, hs: seq<Hearing>)
    requires Searching(u, n) && !n.sm.preferredFound
    requires NonePreferred(u, Reports(u, n, hs))
    ensures Nearest(n.config, Processed(u, n, hs).config, Reports(u, n, hs))
    ensures !Processed(u, n, hs).sm.preferredFound
    decreases |hs|
  {
    var rs := Reports(u, n, hs);
    if hs == [] {
      assert Kept(n.config, n.config, rs);
    } else {
      hide Process, Nearest, Preferred, Searching;
      var p := Process(u, n, hs[0].m, hs[0].now, hs[0].reply);
      var rest := Reports(u, p, hs[1..]);
      ReportOrNot(u, n, hs[0].m, hs[0].now, hs[0].reply);
      if IsReport(n, hs[0].m) {
        var r := Report(hs[0].m.sender, hs[0].m.value);
        assert rs == [r] + rest && rs[0] == r;
        assert forall i :: 0 <= i < |rest| ==> rest[i] == rs[i + 1];
        NearestWins(u, p, hs[1..]);
        OneMoreReport(n.config, p.config, Processed(u, n, hs).config, r, rest);
      } else {
        assert rs == rest;
        NearestWins(u, p, hs[1..]);
        NearestTransfers(p.config, n.config, Processed(u, n, hs).config, rest);
      }
    }
  }

  lemma NearestTransfers(a: NodeConfig, b: NodeConfig, end: NodeConfig, rs: seq<Report>)
    requires a.parent == b.parent && a.distance == b.distance && Nearest(a, end, rs)
    ensures Nearest(b, end, rs)
  {
    if !Kept(a, end, rs) {
      var k: nat :| Won(a, end, rs, k);
      assert Won(b, end, rs, k);
    }
  }

  /** While the node searches, the preferred parent's first report is the last to count. */
  lemma {:induction false} PreferredWins(u: Setup, n: Node, hs: seq<Hearing>, k: nat)
    requires Searching(u, n) && !n.sm.preferredFound
    requires FirstPreferred(u, Reports(u, n, hs), k)
    ensures Processed(u, n, hs).config.parent == u.parentId
    ensures Processed(u, n, hs).config.distance == Reports(u, n, hs)[k].distance + 1
    ensures Processed(u, n, hs).sm.preferredFound
    decreases |hs|
  {
    hide Process, Searching, Reports;
    var rs := Reports(u, n, hs);
    ReportsStep(u, n, hs);
    var p := Process(u, n, hs[0].m, hs[0].now, hs[0].reply);
    var rest := Reports(u, p, hs[1..]);
    ReportOrNot(u, n, hs[0].m, hs[0].now, hs[0].reply);
    if IsReport(n, hs[0].m) {
      assert rs[0] == Report(hs[0].m.sender, hs[0].m.value);
      if k == 0 {
        PreferredStays(u, p, hs[1..]);
      } else {
        assert forall i :: 0 <= i < |rest| ==> rest[i] == rs[i + 1];
        PreferredWins(u, p, hs[1..], k - 1);
      }
    } else {
      assert rs == rest;
      PreferredWins(u, p, hs[1..], k);
    }
  }

  lemma ReportsStep(u: Setup, n: Node, hs: seq<Hearing>)
    requires Reports(u, n, hs) != []
    ensures hs != []
    ensures Reports(u, n, hs) ==
              (if IsReport(n, hs[0].m) then [Report(hs[0].m.sender, hs[0].m.value)] else []) +
              Reports(u, Process(u, n, hs[0].m, hs[0].now, hs[0].reply), hs[1..])
  {
    hide Process;
  }

  /** One visit to the search, from the request to whatever came in: the preferred parent if it reported;
      otherwise the first of the nearest senders less than 254 hops out; otherwise nobody. */
  lemma ParentChoice(u: Setup, n: Node, hs: seq<Hearing>)
    requires Searching(u, n) && !n.sm.preferredFound
    requires n.config.parent == AUTO && n.config.distance == DISTANCE_INVALID
    ensures var rs := Reports(u, n, hs);
            var c := Processed(u, n, hs).config;
            && (forall k: nat :: FirstPreferred(u, rs, k) ==>
                  c.parent == u.parentId && c.distance == rs[k].distance + 1)
            && (NonePreferred(u, rs) && NoneNear(rs) ==> c.parent == AUTO && c.distance == DISTANCE_INVALID)
            && (forall k: nat :: NonePreferred(u, rs) && FirstLeast(rs, k) ==>
                  c.parent == rs[k].sender && c.distance == rs[k].distance + 1)
  {
    hide Processed, Reports, Searching, Preferred;
    var rs := Reports(u, n, hs);
    forall k: nat | FirstPreferred(u, rs, k)
      ensures Processed(u, n, hs).config.parent == u.parentId
      ensures Processed(u, n, hs).config.distance == rs[k].distance + 1
    {
      PreferredWins(u, n, hs, k);
    }
    if NonePreferred(u, rs) {
      NearestWins(u, n, hs);
    }
  }

  /** Entering the search is such a start, and it asks everybody in reach for a parent. */
  lemma SearchStarts(u: Setup, n: Node, now: nat)
    requires !u.gateway && !u.parentIsStatic
    ensures var p := Switch(u, n, Parent, now);
            && Searching(u, p) && !p.sm.preferredFound
            && p.config.parent == AUTO && p.config.distance == DISTANCE_INVALID
            && p.air == n.air + [Frame(BROADCAST_ADDRESS, Packet(n.config.nodeId, n.config.nodeId, BROADCAST_ADDRESS,
                                                                FindParentRequest, false, false, 0))]
  {
  }

  // ----- The uplink check -----

  /** The pong that ends an uplink check is remembered as the distance to the gateway. */
  lemma UplinkStoresHops(u: Setup, n: Node, m: Packet, heardAt: nat, now: nat, reply: byte, radioOk: bool)
    requires Consistent(u, n) && n.sm.stage == Uplink && n.sm.pingActive
    requires m.destination == n.config.nodeId && m.kind == Pong && !m.isAck && m.value != INVALID_HOPS
    ensures var up := Update(u, Process(u, n, m, heardAt, reply), now, radioOk);
            up.sm.stage == Ready && up.config.distance == m.value && up.config.parent == n.config.parent
  {
    hide Route;
    var heard := n.(routes := Learned(u, n.config, n.routes, m), sm := n.sm.(received := true));
    RouteKeeps(u, heard, AckOf(heard, m));
  }

  // ----- Nothing but broadcasts while searching -----

  predicate OnlyBroadcasts(before: seq<Frame>, after: seq<Frame>) {
    before <= after && forall i :: |before| <= i < |after| ==> after[i].to == BROADCAST_ADDRESS
  }

  lemma RouteIsQuiet(u: Setup, n: Node, m: Packet)
    requires n.sm.finding
    ensures OnlyBroadcasts(n.air, Route(u, n, m).air)
    ensures Route(u, n, m).sm == n.sm.(failedTx := Route(u, n, m).sm.failedTx)
  {
  }

  lemma PostIsQuiet(u: Setup, n: Node, destination: byte, kind: Kind, value: byte)
    requires n.sm.finding
    ensures OnlyBroadcasts(n.air, Post(u, n, destination, kind, value).air)
  {
    RouteIsQuiet(u, n, Built(n, destination, kind, value));
  }

  lemma EnterIsQuiet(u: Setup, n: Node)
    ensures !u.parentIsStatic ==> OnlyBroadcasts(n.air, EnterParent(u, n).air)
    ensures OnlyBroadcasts(n.air, EnterInit(n).air) && OnlyBroadcasts(n.air, EnterFailure(n).air)
    ensures EnterId(u, n).sm.finding == n.sm.finding
  {
    hide Post;
    var sm := n.sm.(uplinkOk := false, preferredFound := false, finding := true);
    PostIsQuiet(u, n.(sm := sm, config := n.config.(distance := DISTANCE_INVALID, parent := AUTO)), BROADCAST_ADDRESS,
                FindParentRequest, 0);
    PostKeeps(u, n, GATEWAY_ADDRESS, IdRequest, 0);
  }

  lemma SwitchIsQuiet(u: Setup, n: Node, stage: Stage, now: nat)
    ensures stage == Id ==> Switch(u, n, stage, now).sm.finding == n.sm.finding
    ensures (stage == Parent && !u.parentIsStatic) || stage == Init || stage == Failure ==>
              OnlyBroadcasts(n.air, Switch(u, n, stage, now).air)
  {
    hide EnterParent, EnterInit, EnterFailure, EnterId, EnterUplink, EnterReady, OnlyBroadcasts;
    EnterIsQuiet(u, n.(sm := Placed(n.sm, stage)));
  }

  lemma TickIsQuiet(u: Setup, n: Node, now: nat, radioOk: bool)
    requires Consistent(u, n) && n.sm.finding && Update(u, n, now, radioOk).sm.finding
    ensures OnlyBroadcasts(n.air, Update(u, n, now, radioOk).air)
  {
    hide Switch, OnlyBroadcasts;
    forall a: Node, stage: Stage { SwitchIsQuiet(u, a, stage, now); }
    assert OnlyBroadcasts(n.air, n.air) by { SameAir(n.air); }
  }

  lemma SameAir(air: seq<Frame>)
    ensures OnlyBroadcasts(air, air)
  {
  }

  lemma HearIsQuiet(u: Setup, n: Node, m: Packet, now: nat, reply: byte)
    requires n.sm.finding && !n.sm.uplinkOk
    ensures OnlyBroadcasts(n.air, Process(u, n, m, now, reply).air)
  {
    hide Route;
    forall a: Node, x: Packet | a.sm.finding { RouteIsQuiet(u, a, x); }
  }

  /** As long as a parent is looked for, nothing but broadcasts goes out, whatever happens. */
  lemma QuietWhileSearching(u: Setup, n: Node, e: Event)
    requires u.Valid() && Consistent(u, n) && n.sm.finding && Step(u, n, e).sm.finding
    ensures OnlyBroadcasts(n.air, Step(u, n, e).air)
  {
    hide Update, Process, Route;
    match e
    case Tick(now, radioOk) => TickIsQuiet(u, n, now, radioOk);
    case Hear(h) => HearIsQuiet(u, n, h.m, h.now, h.reply);
    case Send(m) => RouteIsQuiet(u, n, m);
    case PingNode(target, reply) =>
      PostIsQuiet(u, n.(sm := n.sm.(pong := INVALID_HOPS, pingActive := true)), target, Ping, 1);
    case CheckUplink(force, now, reply) =>
      PostIsQuiet(u, n.(sm := n.sm.(pong := INVALID_HOPS, pingActive := true)), GATEWAY_ADDRESS, Ping, 1);
    case _ =>
  }

  // ----- The reaction to unicast traffic -----

  /** The frames sent by a node that hears a unicast message: only when it is ready does it acknowledge and
      relay, but it answers pings whenever it does not look for a parent. */
  function Answers(u: Setup, ready: bool, config: NodeConfig, routes: Table, spare: byte, m: Packet): seq<Frame> {
    if m.destination != config.nodeId then
      if u.repeater && ready then
        [Frame(NextHop(u, config.parent, routes, m.destination, m.last), Stepped(m).(last := config.nodeId))]
      else []
    else
      (if m.wantsAck && ready then
         [Frame(NextHop(u, config.parent, routes, m.sender, m.last), Confirmation(config, m))]
       else []) +
      (if !m.isAck && m.kind == Ping then
         var last := if !m.wantsAck then spare else if ready then config.nodeId else m.last;
         [Frame(NextHop(u, config.parent, routes, m.sender, last), PongTo(config, m.sender))]
       else [])
  }

  function Confirmation(config: NodeConfig, m: Packet): Packet {
    m.(last := config.nodeId, sender := config.nodeId, destination := m.sender, wantsAck := false, isAck := true)
  }

  function PongTo(config: NodeConfig, sender: byte): Packet {
    Packet(config.nodeId, config.nodeId, sender, Pong, false, false, 1)
  }

  /** m is for this node, and no acknowledgement. */
  predicate Takes(n: Node, m: Packet) {
    m.destination == n.config.nodeId && !m.isAck
  }

  predicate TakesPong(n: Node, m: Packet) {
    Takes(n, m) && m.kind == Pong && n.sm.pingActive
  }

  predicate TakesId(u: Setup, n: Node, m: Packet) {
    Takes(n, m) && m.kind == IdResponse && !u.gateway && u.nodeId == AUTO
  }

  /** Hearing a unicast message outside the search: what is learned, sent and remembered, and that the stage,
      the parent and the distance stay. */
  lemma UnicastReaction(u: Setup, n: Node, m: Packet, now: nat, reply: byte)
    requires !n.sm.finding && m.destination != BROADCAST_ADDRESS
    ensures var p := Process(u, n, m, now, reply);
            var routes := Learned(u, n.config, n.routes, m);
            && p.config == (if TakesId(u, n, m) then Assigned(n, m.value).config else n.config)
            && p.routes == routes
            && p.air == n.air + Answers(u, n.sm.uplinkOk, n.config, routes, n.spare, m)
            && p.sm == n.sm.(received := true, failedTx := p.sm.failedTx,
                             pingActive := n.sm.pingActive && !TakesPong(n, m),
                             pong := if TakesPong(n, m) then m.value else n.sm.pong)
            && (m.destination != n.config.nodeId ==> p.spare == n.spare)
  {
    hide NextHop, Addressed, Route, Answers;
    var heard := n.(routes := Learned(u, n.config, n.routes, m), sm := n.sm.(received := true));
    AddressedReaction(u, heard, m);
    RouteKeeps(u, heard, Stepped(m));
    if m.destination != n.config.nodeId { AnswersElsewhere(u, n.sm.uplinkOk, n.config, heard.routes, n.spare, m); }
  }

  lemma AnswersElsewhere(u: Setup, ready: bool, config: NodeConfig, routes: Table, spare: byte, m: Packet)
    requires m.destination != config.nodeId
    ensures Answers(u, ready, config, routes, spare, m) ==
              if u.repeater && ready
              then [Frame(NextHop(u, config.parent, routes, m.destination, m.last), Stepped(m).(last := config.nodeId))]
              else []
  {
  }

  lemma AddressedReaction(u: Setup, n: Node, m: Packet)
    requires !n.sm.finding
    ensures var p := Addressed(u, n, m);
            m.destination == n.config.nodeId ==>
            && p.config == (if TakesId(u, n, m) then Assigned(n, m.value).config else n.config)
            && p.routes == n.routes
            && p.air == n.air + Answers(u, n.sm.uplinkOk, n.config, n.routes, n.spare, m)
            && p.sm == n.sm.(failedTx := p.sm.failedTx, pingActive := n.sm.pingActive && !TakesPong(n, m),
                             pong := if TakesPong(n, m) then m.value else n.sm.pong)
  {
    hide Acknowledged, Post, NextHop;
    var acked := Acknowledged(u, n, m);
    AcknowledgedSends(u, n, m);
    PostSends(u, acked, m.sender, Pong, 1);
    PostKeeps(u, acked, m.sender, Pong, 1);
  }

  lemma AcknowledgedSends(u: Setup, n: Node, m: Packet)
    requires !n.sm.finding
    ensures var p := Acknowledged(u, n, m);
            && p.config == n.config && p.routes == n.routes && p.sm == n.sm.(failedTx := p.sm.failedTx)
            && p.air == n.air + (if m.wantsAck && n.sm.uplinkOk then
                 [Frame(NextHop(u, n.config.parent, n.routes, m.sender, m.last), Confirmation(n.config, m))] else [])
            && p.spare == (if !m.wantsAck then n.spare else if n.sm.uplinkOk then n.config.nodeId else m.last)
  {
    hide Route, NextHop;
    RouteKeeps(u, n, AckOf(n, m));
    assert AckOf(n, m).(last := n.config.nodeId) == Confirmation(n.config, m);
  }

  lemma PostSends(u: Setup, n: Node, destination: byte, kind: Kind, value: byte)
    requires !n.sm.finding
    ensures var p := Post(u, n, destination, kind, value);
            && p.routes == n.routes && p.stored == n.stored && p.spare == n.config.nodeId
            && p.air == n.air +
                 [Frame(NextHop(u, n.config.parent, n.routes, destination, n.spare),
                        Packet(n.config.nodeId, n.config.nodeId, destination, kind, false, false, value))]
  {
    hide NextHop;
    RouteKeeps(u, n, Built(n, destination, kind, value));
  }

  lemma SwitchStage(u: Setup, n: Node, stage: Stage, now: nat)
    ensures Switch(u, n, stage, now).sm.stage == stage
  {
    hide Post, EnterInit, EnterParent, EnterId, EnterUplink, EnterReady, EnterFailure;
    var placed := n.(sm := Placed(n.sm, stage));
    match stage
    case Parent => EnteringKeepsStage(u, placed);
    case Id => EnteringKeepsStage(u, placed);
    case Uplink => EnteringKeepsStage(u, placed);
    case _ => EnteringElsewhere(placed);
  }

  lemma EnteringKeepsStage(u: Setup, n: Node)
    ensures EnterParent(u, n).sm.stage == EnterId(u, n).sm.stage == EnterUplink(u, n).sm.stage == n.sm.stage
  {
    hide Post;
    var sm := n.sm.(uplinkOk := false, preferredFound := false, finding := true);
    PostKeeps(u, n.(sm := sm, config := n.config.(distance := DISTANCE_INVALID, parent := AUTO)), BROADCAST_ADDRESS,
              FindParentRequest, 0);
    PostKeeps(u, n, GATEWAY_ADDRESS, IdRequest, 0);
    PostKeeps(u, n.(sm := n.sm.(pong := INVALID_HOPS, pingActive := true)), GATEWAY_ADDRESS, Ping, 1);
  }

  lemma EnteringElsewhere(n: Node)
    ensures EnterInit(n).sm.stage == EnterReady(n).sm.stage == EnterFailure(n).sm.stage == n.sm.stage
  {
  }

  lemma UplinkPings(u: Setup, n: Node)
    requires !n.sm.finding
    ensures var p := EnterUplink(u, n);
            && p.config == n.config && p.routes == n.routes
            && p.air == n.air + (if u.uplinkCheck then [UplinkPingOf(n.config)] else [])
            && (u.uplinkCheck ==> p.sm.pong == INVALID_HOPS && p.sm.pingActive)
  {
    hide Post;
    var asking := n.(sm := n.sm.(pong := INVALID_HOPS, pingActive := true));
    PostSends(u, asking, GATEWAY_ADDRESS, Ping, 1);
    PostKeeps(u, asking, GATEWAY_ADDRESS, Ping, 1);
  }

  /** Entering the uplink check sends a ping, or nothing if the check is disabled. */
  lemma EnteringUplink(u: Setup, n: Node, now: nat)
    requires !n.sm.finding
    ensures var p := Switch(u, n, Uplink, now);
            && p.config == n.config && p.routes == n.routes
            && p.air == n.air + (if u.uplinkCheck then [UplinkPingOf(n.config)] else [])
            && (u.uplinkCheck ==> p.sm.pong == INVALID_HOPS && p.sm.pingActive)
  {
    hide EnterInit, EnterParent, EnterId, EnterUplink, EnterReady, EnterFailure;
    UplinkPings(u, n.(sm := Placed(n.sm, Uplink)));
  }

  lemma EnteringReady(u: Setup, n: Node, now: nat)
    ensures var p := Switch(u, n, Ready, now);
            p.config == n.config && p.routes == n.routes && p.air == n.air && p.sm.uplinkOk
  {
  }

  /** A tick that leaves a node past the search: nothing is sent but the ping of its uplink check, and what the
      check has heard becomes its distance. */
  lemma TickPastSearch(u: Setup, n: Node, now: nat, radioOk: bool)
    requires Consistent(u, n) && HasParent(n.sm.stage) && n.config.nodeId != AUTO
    requires var p := Update(u, n, now, radioOk); HasParent(p.sm.stage) && (u.gateway ==> p.air == n.air)
    ensures var p := Update(u, n, now, radioOk);
            && p.config == n.config.(distance := p.config.distance) && p.routes == n.routes
            && (n.sm.stage == Ready ==> p.sm.stage == Ready)
            && (p.air == n.air || (!u.gateway && p.air == n.air + [UplinkPingOf(n.config)]))
            && (p.sm.stage == Uplink && u.uplinkCheck && p.sm.pong != INVALID_HOPS ==>
                  n.sm.stage == Uplink && p.sm.pong == n.sm.pong)
            && (n.sm.stage == Uplink && u.uplinkCheck && p.sm.stage == Ready ==>
                  p.config.distance == n.sm.pong && n.sm.pong != INVALID_HOPS)
  {
    hide Switch, Post;
    forall a: Node, stage: Stage { SwitchStage(u, a, stage, now); }
    match n.sm.stage
    case Id => EnteringUplink(u, n, now);
    case Uplink =>
      EnteringUplink(u, n, now);
      EnteringReady(u, n, now);
      EnteringReady(u, n.(sm := n.sm.(lastCheck := now), config := n.config.(distance := n.sm.pong)), now);
    case Ready => PostSends(u, n.(sm := n.sm.(lastDiscovery := now)), BROADCAST_ADDRESS, DiscoverRequest, 0);
    case _ =>
  }

  /** The ping that a node sends over its parent to the gateway. */
  function UplinkPingOf(config: NodeConfig): Frame {
    Frame(config.parent, Packet(config.nodeId, config.nodeId, GATEWAY_ADDRESS, Ping, false, false, 1))
  }

  // ----- The reaction of a node to a broadcast -----

  predicate Forwards(u: Setup, n: Node, m: Packet) {
    && n.config.nodeId != BROADCAST_ADDRESS
    && u.repeater && n.sm.uplinkOk && m.last == n.config.parent && m.sender != n.config.nodeId
    && m.kind != FindParentRequest && m.kind != FindParentResponse
  }

  /** The broadcasts among the frames sent. */
  function Broadcasts(air: seq<Frame>): seq<Packet> {
    if air == [] then []
    else
      var f := air[|air| - 1];
      Broadcasts(air[..|air| - 1]) + (if f.packet.destination == BROADCAST_ADDRESS then [f.packet] else [])
  }

  lemma RouteBroadcasts(u: Setup, n: Node, m: Packet)
    ensures m.destination != BROADCAST_ADDRESS ==> Broadcasts(Route(u, n, m).air) == Broadcasts(n.air)
    ensures m.destination == BROADCAST_ADDRESS ==>
              Broadcasts(Route(u, n, m).air) == Broadcasts(n.air) + [m.(last := n.config.nodeId)]
  {
    if !Blocked(n, m) {
      var f := Frame(Hop(u, n, m), m.(last := n.config.nodeId));
      assert (n.air + [f])[..|n.air|] == n.air;
    }
  }

  lemma PostBroadcasts(u: Setup, n: Node, destination: byte, kind: Kind, value: byte)
    ensures Broadcasts(Post(u, n, destination, kind, value).air) ==
              Broadcasts(n.air) + if destination == BROADCAST_ADDRESS then [Own(n, kind, value)] else []
  {
    RouteBroadcasts(u, n, Built(n, destination, kind, value));
  }

  /** A message of the node to everybody. */
  function Own(n: Node, kind: Kind, value: byte): Packet {
    Packet(n.config.nodeId, n.config.nodeId, BROADCAST_ADDRESS, kind, false, false, value)
  }

  /** A node that has no id yet is asking: an answer to it goes to everybody. */
  predicate FromNobody(m: Packet) {
    m.sender == BROADCAST_ADDRESS
  }

  /** The hops a repeater reports to those that look for a parent. */
  function ReportedHops(n: Node, now: nat, reply: byte): byte {
    if CheckedLately(n, false, now) then n.config.distance else PingResult(n, GATEWAY_ADDRESS, reply)
  }

  predicate Offers(u: Setup, n: Node, m: Packet, now: nat, reply: byte) {
    u.repeater && m.sender != n.config.parent && UplinkFine(n, false, now, reply)
  }

  /** The answers to a broadcast that are broadcasts themselves. */
  function BroadcastAnswers(u: Setup, n: Node, m: Packet, now: nat, reply: byte): seq<Packet> {
    if !FromNobody(m) then []
    else if n.config.nodeId == BROADCAST_ADDRESS then
      (if m.wantsAck && n.sm.uplinkOk then [Confirmation(n.config, m)] else []) +
      (if !m.isAck && m.kind == Ping then [Own(n, Pong, 1)] else [])
    else if n.sm.uplinkOk && m.kind == FindParentRequest then
      if Offers(u, n, m, now, reply) then [Own(n, FindParentResponse, ReportedHops(n, now, reply))] else []
    else if !u.gateway && m.kind == DiscoverRequest && m.last == n.config.parent then
      [Own(n, DiscoverResponse, n.config.parent)]
    else []
  }

  lemma OfferedBroadcasts(u: Setup, n: Node, m: Packet, now: nat, reply: byte)
    ensures Broadcasts(Offered(u, n, m, now, reply).air) == Broadcasts(n.air) +
              if FromNobody(m) && Offers(u, n, m, now, reply)
              then [Own(n, FindParentResponse, ReportedHops(n, now, reply))] else []
  {
    hide Post, Broadcasts;
    var asking := n.(sm := n.sm.(pong := INVALID_HOPS, pingActive := true));
    PostBroadcasts(u, asking, GATEWAY_ADDRESS, Ping, 1);
    PostKeeps(u, asking, GATEWAY_ADDRESS, Ping, 1);
    var checked := Checked(u, n, false, now, reply);
    PostBroadcasts(u, checked.(sm := checked.sm.(lastCheck := now)), m.sender, FindParentResponse,
                   checked.config.distance);
  }

  /** A node without an id takes what goes to everybody as sent to itself. */
  lemma NamelessBroadcasts(u: Setup, n: Node, m: Packet)
    requires n.config.nodeId == BROADCAST_ADDRESS && m.destination == BROADCAST_ADDRESS
    ensures Broadcasts(Addressed(u, n, m).air) == Broadcasts(n.air) + BroadcastAnswers(u, n, m, 0, 0)
  {
    hide Post, Route, Broadcasts;
    RouteBroadcasts(u, n, AckOf(n, m));
    RouteKeeps(u, n, AckOf(n, m));
    PostBroadcasts(u, Acknowledged(u, n, m), m.sender, Pong, 1);
    assert AckOf(n, m).(last := n.config.nodeId) == Confirmation(n.config, m);
  }

  /** What broadcasts a broadcast leads to, whoever sent it: an answer, if the sender has no id, and a copy,
      only in a ready repeater that hears it from its parent; requests for a parent and the answers to them
      are never passed on. */
  lemma BroadcastReaction(u: Setup, n: Node, m: Packet, now: nat, reply: byte)
    requires m.destination == BROADCAST_ADDRESS
    ensures var p := Process(u, n, m, now, reply);
            Broadcasts(p.air) == Broadcasts(n.air) + BroadcastAnswers(u, n, m, now, reply) +
              if Forwards(u, n, m) then [m.(last := n.config.nodeId)] else []
    ensures |BroadcastAnswers(u, n, m, now, reply)| <= 1 || n.config.nodeId == BROADCAST_ADDRESS
  {
    hide Route, Broadcasts, Offered, Post, Addressed;
    var heard := n.(routes := Learned(u, n.config, n.routes, m), sm := n.sm.(received := true));
    if n.config.nodeId == BROADCAST_ADDRESS {
      NamelessBroadcasts(u, heard, m);
    } else {
      OfferedBroadcasts(u, heard, m, now, reply);
      PostBroadcasts(u, heard, m.sender, DiscoverResponse, n.config.parent);
      PostKeeps(u, heard, m.sender, DiscoverResponse, n.config.parent);
      RouteBroadcasts(u, heard, m);
      RouteBroadcasts(u, Post(u, heard, m.sender, DiscoverResponse, n.config.parent), m);
    }
  }

  /** The one that the search for a parent depends on: a node without an id asks everybody, and a ready
      repeater with a working uplink answers everybody. */
  lemma NamelessRequestIsAnswered(u: Setup, n: Node, m: Packet, now: nat, reply: byte)
    requires m.destination == BROADCAST_ADDRESS && FromNobody(m) && m.kind == FindParentRequest
    requires n.config.nodeId != BROADCAST_ADDRESS && n.sm.uplinkOk && u.repeater && n.config.parent != AUTO
    ensures Broadcasts(Process(u, n, m, now, reply).air) == Broadcasts(n.air) +
              if UplinkFine(n, false, now, reply) then [Own(n, FindParentResponse, ReportedHops(n, now, reply))] else []
  {
    hide Process, Broadcasts;
    BroadcastReaction(u, n, m, now, reply);
  }
}

/** The transport as it runs: static structures and a routing table, changed in place. */
module NodeTransport {
  import opened Words
  import opened TransportSpec

  class Transport {
    const setup: Setup
    const routes: array<byte>
    var config: NodeConfig
    var stored: NodeConfig
    var sm: Machine
    var air: seq<Frame>
    var spare: byte

    constructor (setup: Setup, stored: NodeConfig, table: Table)
      ensures this.setup == setup && fresh(routes) && Valid() && View() == PowerOn(stored, table)
    {
      this.setup := setup;
      this.config := NodeConfig(0, 0, 0);
      this.stored := stored;
      this.sm := PowerOn(stored, table).sm;
      this.air := [];
      this.spare := 0;
      routes := new byte[256](i requires 0 <= i < 256 => table[i]);
      new;
      assert routes[..] == table;
    }

    predicate Valid() {
      routes.Length == 256
    }

    function View(): Node
      requires Valid()
      reads this, routes
    {
      Node(config, stored, sm, routes[..], air, spare)
    }

    // ----- Sending -----

    method SendWrite(to: byte, m: Packet) returns (result: bool)
      modifies this`air
      ensures air == old(air) + [Frame(to, m.(last := config.nodeId))]
      ensures result == (setup.acked(|old(air)|) || to == BROADCAST_ADDRESS)
    {
      var message := m.(last := config.nodeId);
      result := setup.acked(|air|);
      air := air + [Frame(to, message)];
      result := result || to == BROADCAST_ADDRESS;
    }

    method GetRoute(node: byte) returns (route: byte)
      requires Valid()
      ensures route == View().routes[node]
    {
      route := routes[node];
    }

    method SetRoute(node: byte, route: byte)
      requires Valid()
      modifies routes
      ensures View() == old(View()).(routes := old(View()).routes[node := route])
    {
      routes[node] := route;
    }

    method ClearRoutingTable()
      requires Valid()
      modifies routes
      ensures View() == Step(setup, old(View()), ClearRoutes)
    {
      for i := 0 to 256
        invariant forall k :: 0 <= k < i ==> routes[k] == BROADCAST_ADDRESS
      {
        routes[i] := BROADCAST_ADDRESS;
      }
      assert routes[..] == seq(256, _ => BROADCAST_ADDRESS);
    }

    method RouteMessage(m: Packet) returns (result: bool)
      requires Valid()
      modifies this`air, this`sm
      ensures View() == Route(setup, old(View()), m)
      ensures result == (!Blocked(old(View()), m) && Acked(setup, old(View()), m))
    {
      var destination := m.destination;
      var route := config.parent;
      if sm.finding && destination != BROADCAST_ADDRESS {
        return false;
      }
      if destination == GATEWAY_ADDRESS {
        route := config.parent;
      } else if destination == BROADCAST_ADDRESS {
        route := BROADCAST_ADDRESS;
      } else if setup.repeater {
        route := GetRoute(destination);
        if route == AUTO {
          if !setup.gateway {
            if m.last != config.parent {
              route := config.parent;
            } else {
              route := destination;
            }
          } else {
            route := destination;
          }
        }
      } else {
        route := config.parent;
      }
      result := SendWrite(route, m);
      if !setup.gateway && route == config.parent {
        if !result {
          sm := sm.(failedTx := (sm.failedTx + 1) % 16);
        } else {
          sm := sm.(failedTx := 0);
        }
      }
    }

    /** Routes a message that stands in the buffer for outgoing messages. */
    method RouteBuffer(m: Packet)
      requires Valid()
      modifies this`air, this`sm, this`spare
      ensures View() == RouteSpare(setup, old(View()), m)
    {
      var blocked := sm.finding && m.destination != BROADCAST_ADDRESS;
      var _ := RouteMessage(m);
      spare := if blocked then m.last else config.nodeId;
    }

    method BuildAndRoute(destination: byte, kind: Kind, value: byte)
      requires Valid()
      modifies this`air, this`sm, this`spare
      ensures View() == Post(setup, old(View()), destination, kind, value)
    {
      RouteBuffer(Packet(spare, config.nodeId, destination, kind, false, false, value));
    }

    method SendRoute(m: Packet) returns (result: bool)
      requires Valid()
      modifies this`air, this`sm
      ensures View() == Step(setup, old(View()), Send(m))
      ensures result == (old(sm.uplinkOk) && !Blocked(old(View()), m) && Acked(setup, old(View()), m))
    {
      result := false;
      if sm.uplinkOk {
        result := RouteMessage(m);
      }
    }

    // ----- The state machine -----

    method AssignNodeID(id: byte) returns (ok: bool)
      requires Valid()
      modifies this`config, this`stored
      ensures View() == Assigned(old(View()), id)
      ensures ok <==> id != GATEWAY_ADDRESS && id != AUTO
    {
      if id != GATEWAY_ADDRESS && id != AUTO {
        config := config.(nodeId := id);
        stored := stored.(nodeId := id);
        return true;
      } else {
        config := config.(nodeId := AUTO);
        return false;
      }
    }

    method InitTransition()
      requires Valid()
      modifies this`sm, this`config
      ensures View() == EnterInit(old(View()))
    {
      sm := sm.(pingActive := false);
      sm := sm.(active := false);
      sm := sm.(lastCheck := 0);
      sm := sm.(lastDiscovery := 0);
      config := stored;
    }

    method ParentTransition()
      requires Valid()
      modifies this`sm, this`config, this`stored, this`air, this`spare
      ensures View() == EnterParent(setup, old(View()))
    {
      hide Post;
      sm := sm.(uplinkOk := false);
      sm := sm.(preferredFound := false);
      if setup.parentIsStatic {
        sm := sm.(finding := false);
        config := config.(distance := 1);
        config := config.(parent := setup.parentId);
        stored := stored.(parent := setup.parentId);
      } else {
        sm := sm.(finding := true);
        config := config.(distance := DISTANCE_INVALID);
        config := config.(parent := AUTO);
        BuildAndRoute(BROADCAST_ADDRESS, FindParentRequest, 0);
      }
    }

    method UplinkTransition()
      requires Valid()
      modifies this`sm, this`air, this`spare
      ensures View() == EnterUplink(setup, old(View()))
    {
      hide Post;
      if setup.uplinkCheck {
        sm := sm.(pong := INVALID_HOPS);
        sm := sm.(pingActive := true);
        BuildAndRoute(GATEWAY_ADDRESS, Ping, 1);
      }
    }

    method FailureTransition()
      requires Valid()
      modifies this`sm
      ensures View() == EnterFailure(old(View()))
    {
      if sm.failures < MAX_FAILURES {
        sm := sm.(failures := (sm.failures + 1) % 8);
      }
      sm := sm.(uplinkOk := false);
      sm := sm.(active := false);
    }

    method SwitchSM(stage: Stage, now: nat)
      requires Valid()
      modifies this`sm, this`config, this`stored, this`air, this`spare
      ensures View() == Switch(setup, old(View()), stage, now)
    {
      hide EnterInit, EnterParent, EnterUplink, EnterFailure, Post;
      if sm.stage != stage {
        sm := sm.(stage := stage, retries := 0);
      } else {
        sm := sm.(retries := (sm.retries + 1) % 8);
      }
      assert View() == old(View()).(sm := Placed(old(sm), stage));
      match stage {
        case Off =>
        case Init => InitTransition();
        case Parent => ParentTransition();
        case Id =>
          if config.nodeId == AUTO {
            BuildAndRoute(GATEWAY_ADDRESS, IdRequest, 0);
          }
        case Uplink => UplinkTransition();
        case Ready =>
          sm := sm.(uplinkOk := true, failures := 0, failedTx := 0);
        case Failure => FailureTransition();
      }
      sm := sm.(entered := now);
    }

    method InitUpdate(now: nat, radioOk: bool)
      requires Valid()
      modifies this`sm, this`config, this`stored, this`air, this`spare
      ensures View() == UpdateInit(setup, old(View()), now, radioOk)
    {
      if !radioOk {
        SwitchSM(Failure, now);
      } else {
        sm := sm.(active := true);
        if setup.gateway {
          config := config.(parent := GATEWAY_ADDRESS);
          config := config.(distance := 0);
          config := config.(nodeId := GATEWAY_ADDRESS);
          SwitchSM(Ready, now);
        } else {
          if setup.nodeId != AUTO {
            config := config.(nodeId := setup.nodeId);
            stored := stored.(nodeId := setup.nodeId);
          }
          var ok := config.nodeId == AUTO;
          if !ok {
            ok := AssignNodeID(config.nodeId);
          }
          if ok {
            SwitchSM(Parent, now);
          } else {
            SwitchSM(Failure, now);
          }
        }
      }
    }

    method ParentUpdate(now: nat)
      requires Valid()
      modifies this`sm, this`config, this`stored, this`air, this`spare
      ensures View() == UpdateParent(setup, old(View()), now)
    {
      if setup.parentIsStatic {
        SwitchSM(Id, now);
      } else if U32(now - sm.entered) > STATE_TIMEOUT || sm.preferredFound {
        if config.parent != AUTO {
          sm := sm.(finding := false);
          SwitchSM(Id, now);
        } else if sm.retries < STATE_RETRIES {
          SwitchSM(Parent, now);
        } else {
          SwitchSM(Failure, now);
        }
      }
    }

    method IdUpdate(now: nat)
      requires Valid()
      modifies this`sm, this`config, this`stored, this`air, this`spare
      ensures View() == UpdateId(setup, old(View()), now)
    {
      if config.nodeId != AUTO {
        SwitchSM(Uplink, now);
      } else if U32(now - sm.entered) > STATE_TIMEOUT {
        if sm.retries < STATE_RETRIES {
          SwitchSM(Id, now);
        } else {
          SwitchSM(Failure, now);
        }
      }
    }

    method UplinkUpdate(now: nat)
      requires Valid()
      modifies this`sm, this`config, this`stored, this`air, this`spare
      ensures View() == UpdateUplink(setup, old(View()), now)
    {
      hide Switch;
      if !setup.uplinkCheck {
        SwitchSM(Ready, now);
      } else if sm.pong != INVALID_HOPS {
        sm := sm.(lastCheck := now);
        if sm.pong != config.distance {
          config := config.(distance := sm.pong);
        }
        SwitchSM(Ready, now);
      } else if U32(now - sm.entered) > STATE_TIMEOUT {
        if sm.retries < STATE_RETRIES {
          SwitchSM(Uplink, now);
        } else {
          sm := sm.(pingActive := false);
          SwitchSM(Parent, now);
        }
      }
    }

    method ReadyUpdate(now: nat)
      requires Valid()
      modifies this`sm, this`config, this`stored, this`air, this`spare
      ensures View() == UpdateReady(setup, old(View()), now)
    {
      if setup.gateway {
        if U32(now - sm.lastDiscovery) > DISCOVERY_INTERVAL {
          sm := sm.(lastDiscovery := now);
          BuildAndRoute(BROADCAST_ADDRESS, DiscoverRequest, 0);
        }
      } else if sm.failedTx > setup.MaxTxFailures() {
        if !setup.parentIsStatic {
          SwitchSM(Parent, now);
        } else {
          sm := sm.(failedTx := 0);
        }
      }
    }

    method FailureUpdate(now: nat)
      requires Valid()
      modifies this`sm, this`config, this`stored, this`air, this`spare
      ensures View() == UpdateFailure(setup, old(View()), now)
    {
      var patience := if sm.failures == MAX_FAILURES then EXTENDED_FAILURE_TIMEOUT else FAILURE_TIMEOUT;
      if U32(now - sm.entered) > patience {
        SwitchSM(Init, now);
      }
    }

    method UpdateSM(now: nat, radioOk: bool)
      requires Valid()
      modifies this`sm, this`config, this`stored, this`air, this`spare
      ensures View() == Update(setup, old(View()), now, radioOk)
    {
      match sm.stage
      case Off =>
      case Init => InitUpdate(now, radioOk);
      case Parent => ParentUpdate(now);
      case Id => IdUpdate(now);
      case Uplink => UplinkUpdate(now);
      case Ready => ReadyUpdate(now);
      case Failure => FailureUpdate(now);
    }

    method InvokeSanityCheck(fine: bool, now: nat)
      requires Valid() && sm.active
      modifies this`sm, this`config, this`stored, this`air, this`spare
      ensures View() == Step(setup, old(View()), Sanity(fine, now))
    {
      if !fine {
        SwitchSM(Failure, now);
      }
    }

    // ----- Pinging -----

    method PingStation(target: byte, reply: byte) returns (hops: byte)
      requires Valid()
      modifies this`sm, this`air, this`spare
      ensures View() == Pinged(setup, old(View()), target, reply)
      ensures hops == PingResult(old(View()), target, reply)
    {
      hide Post;
      if !sm.pingActive {
        if target == config.nodeId {
          sm := sm.(pong := 0);
        } else {
          sm := sm.(pong := INVALID_HOPS, pingActive := true);
          BuildAndRoute(target, Ping, 1);
          sm := sm.(pong := reply);
        }
        sm := sm.(pingActive := false);
        return sm.pong;
      } else {
        return INVALID_HOPS;
      }
    }

    method CheckLink(force: bool, now: nat, reply: byte) returns (fine: bool)
      requires Valid()
      modifies this`sm, this`config, this`air, this`spare
      ensures View() == Checked(setup, old(View()), force, now, reply)
      ensures fine == UplinkFine(old(View()), force, now, reply)
    {
      if !force && U32(now - sm.lastCheck) < UPLINK_CHECK_INTERVAL {
        return true;
      }
      var hops := PingStation(GATEWAY_ADDRESS, reply);
      if hops != INVALID_HOPS {
        sm := sm.(lastCheck := now);
        if hops != config.distance {
          config := config.(distance := hops);
        }
        return true;
      } else {
        return false;
      }
    }

    // ----- Receiving -----

    method HandleInternal(m: Packet)
      requires Valid()
      modifies this`sm, this`config, this`stored, this`air, this`spare
      ensures View() == Handled(setup, old(View()), m)
    {
      if !setup.gateway && m.kind == IdResponse {
        if setup.nodeId == AUTO {
          var _ := AssignNodeID(m.value);
        }
        return;
      }
      if !setup.gateway && !setup.parentIsStatic && m.kind == FindParentResponse {
        if sm.finding {
          var distance := m.value;
          if distance != DISTANCE_INVALID {
            distance := distance + 1;
            var preferred := setup.parentId != AUTO && m.sender == setup.parentId;
            if ((distance != DISTANCE_INVALID && distance < config.distance) || preferred) && !sm.preferredFound {
              if preferred {
                sm := sm.(preferredFound := true);
              }
              config := config.(distance := distance);
              config := config.(parent := m.sender);
            }
          }
        }
        return;
      }
      if m.kind == Ping {
        BuildAndRoute(m.sender, Pong, 1);
      } else if m.kind == Pong && sm.pingActive {
        sm := sm.(pingActive := false);
        sm := sm.(pong := m.value);
      }
    }

    method ProcessAddressed(m: Packet)
      requires Valid()
      modifies this`sm, this`config, this`stored, this`air, this`spare
      ensures View() == Addressed(setup, old(View()), m)
    {
      if m.wantsAck {
        if sm.uplinkOk {
          RouteBuffer(m.(wantsAck := false, isAck := true, sender := config.nodeId, destination := m.sender));
        } else {
          spare := m.last;
        }
      }
      if !m.isAck && m.kind.Internal() {
        HandleInternal(m);
      }
    }

    method ProcessBroadcast(m: Packet, now: nat, reply: byte)
      requires Valid()
      modifies this`sm, this`config, this`stored, this`air, this`spare
      ensures View() == Broadcasted(setup, old(View()), m, now, reply)
    {
      if sm.uplinkOk && m.kind == FindParentRequest {
        if setup.repeater && m.sender != config.parent {
          var fine := CheckLink(false, now, reply);
          if fine {
            sm := sm.(lastCheck := now);
            BuildAndRoute(m.sender, FindParentResponse, config.distance);
          }
        }
        return;
      }
      if m.kind == FindParentResponse {
        return;
      }
      if !setup.gateway && m.kind == DiscoverRequest && m.last == config.parent {
        BuildAndRoute(m.sender, DiscoverResponse, config.parent);
      }
      if setup.repeater && m.last == config.parent && m.sender != config.nodeId && sm.uplinkOk {
        var _ := RouteMessage(m);
      }
    }

    method Relay(m: Packet)
      requires Valid()
      modifies this`sm, this`air
      ensures View() == Relayed(setup, old(View()), m)
    {
      if setup.repeater && sm.uplinkOk {
        var message := m;
        if m.kind == Ping || m.kind == Pong {
          var hops := m.value;
          if hops != MAX_HOPS {
            hops := U8(hops as int + 1);
            message := message.(value := hops);
          }
        }
        var _ := RouteMessage(message);
      }
    }

    method ProcessMessage(m: Packet, now: nat, reply: byte)
      requires Valid()
      modifies this`sm, this`config, this`stored, this`air, this`spare, routes
      ensures View() == Process(setup, old(View()), m, now, reply)
    {
      if setup.repeater && (setup.gateway || m.last != config.parent) {
        if m.sender != config.nodeId {
          SetRoute(m.sender, m.last);
        }
      }
      sm := sm.(received := true);
      if m.destination == config.nodeId {
        ProcessAddressed(m);
      } else if m.destination == BROADCAST_ADDRESS {
        ProcessBroadcast(m, now, reply);
      } else {
        Relay(m);
      }
    }
  }
}
