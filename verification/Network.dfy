/** A fixed tree of nodes: who is whose parent, and how far from the gateway everybody is. */
module Trees {
  import opened Words
  import opened TransportSpec

  datatype Tree = Tree(nodes: set<byte>, parent: byte -> byte, depth: byte -> nat, setup: byte -> Setup)

  /** The gateway is the root, every other node hangs one step below its parent, and parents repeat. */
  ghost predicate Wf(t: Tree) {
    && GATEWAY_ADDRESS in t.nodes && AUTO !in t.nodes
    && t.parent(GATEWAY_ADDRESS) == GATEWAY_ADDRESS && t.depth(GATEWAY_ADDRESS) == 0
    && (forall n :: n in t.nodes ==> t.setup(n).Valid() && (t.setup(n).gateway <==> n == GATEWAY_ADDRESS))
    && (forall n :: n in t.nodes && n != GATEWAY_ADDRESS ==>
          t.parent(n) in t.nodes && t.depth(n) == t.depth(t.parent(n)) + 1 && t.setup(t.parent(n)).repeater)
  }

  /** s is n or hangs somewhere below it. */
  ghost predicate Below(t: Tree, s: byte, n: byte)
    requires Wf(t) && s in t.nodes
    decreases t.depth(s)
  {
    s == n || (s != GATEWAY_ADDRESS && Below(t, t.parent(s), n))
  }

  /** The child of n on the path from n down to s. */
  ghost function Toward(t: Tree, s: byte, n: byte): (c: byte)
    requires Wf(t) && s in t.nodes && Below(t, s, n) && s != n
    ensures c in t.nodes && c != GATEWAY_ADDRESS && t.parent(c) == n && Below(t, s, c)
    decreases t.depth(s)
  {
    if t.parent(s) == n then s else Toward(t, t.parent(s), n)
  }

  lemma {:induction false} BelowIsDeeper(t: Tree, s: byte, n: byte)
    requires Wf(t) && s in t.nodes && Below(t, s, n)
    ensures n in t.nodes && t.depth(n) <= t.depth(s) && (t.depth(n) == t.depth(s) ==> s == n)
    decreases t.depth(s)
  {
    if s != n { BelowIsDeeper(t, t.parent(s), n); }
  }

  lemma {:induction false} BelowParent(t: Tree, s: byte, c: byte)
    requires Wf(t) && s in t.nodes && c != GATEWAY_ADDRESS && Below(t, s, c)
    ensures Below(t, s, t.parent(c)) && s != t.parent(c)
    decreases t.depth(s)
  {
    BelowIsDeeper(t, s, c);
    if s != c { BelowParent(t, t.parent(s), c); }
  }

  /** The child on the path is the only child that s hangs below. */
  lemma {:induction false} TowardIsUnique(t: Tree, s: byte, c: byte)
    requires Wf(t) && s in t.nodes && c != GATEWAY_ADDRESS && Below(t, s, c)
    ensures Below(t, s, t.parent(c)) && s != t.parent(c) && Toward(t, s, t.parent(c)) == c
    decreases t.depth(s)
  {
    BelowParent(t, s, c);
    if s != c {
      TowardIsUnique(t, t.parent(s), c);
    }
  }

  lemma {:induction false} AllBelowGateway(t: Tree, s: byte)
    requires Wf(t) && s in t.nodes
    ensures Below(t, s, GATEWAY_ADDRESS)
    decreases t.depth(s)
  {
    if s != GATEWAY_ADDRESS { AllBelowGateway(t, t.parent(s)); }
  }
}

/**
 Unicast traffic on a fixed tree. Every node runs the transport, from the moment it has its parent: it looks
 for an id, checks its uplink, and becomes ready. A frame is heard over an edge of the tree by the node it is
 addressed to, any number of times, in any order, or never.
 */
module Network {
  import opened Words
  import opened TransportSpec
  import opened Trees

  type Net = map<byte, Node>

  datatype Action =
    | Deliver(f: Frame, now: nat, reply: byte)
    | Local(n: byte, e: Event)

  predicate Up(t: Tree, f: Frame) {
    f.packet.last != GATEWAY_ADDRESS && f.to == t.parent(f.packet.last)
  }

  predicate Down(t: Tree, f: Frame) {
    f.to in t.nodes && f.to != GATEWAY_ADDRESS && t.parent(f.to) == f.packet.last
  }

  /** What a node does by itself: its state machine ticks, as long as it keeps its parent and discovers no
      network; it sends application and other messages to somebody else; once it is ready it pings others and
      checks its uplink. No ids are handed out. It may forget all its routes at any time. */
  predicate Acts(u: Setup, n: byte, node: Node, e: Event) {
    match e
    case Tick(now, radioOk) =>
      var after := Update(u, node, now, radioOk);
      HasParent(after.sm.stage) && (u.gateway ==> after.air == node.air)
    case Send(m) =>
      && m.sender == n && m.destination != n && m.destination != BROADCAST_ADDRESS
      && m.kind != Ping && m.kind != Pong && m.kind != IdResponse
    case PingNode(target, _) => node.sm.uplinkOk && target != BROADCAST_ADDRESS
    case CheckUplink(_, _, _) => node.sm.uplinkOk
    case ClearRoutes => true
    case _ => false
  }

  /** A frame can be heard once it was sent, over an edge of the tree. */
  predicate Enabled(t: Tree, net: Net, a: Action) {
    match a
    case Deliver(f, _, _) =>
      && f.packet.last in net && f in net[f.packet.last].air && f.to in net && (Up(t, f) || Down(t, f))
    case Local(n, e) => n in net && Acts(t.setup(n), n, net[n], e)
  }

  function Next(t: Tree, net: Net, a: Action): Net
    requires Enabled(t, net, a)
  {
    match a
    case Deliver(f, now, reply) => net[f.to := Process(t.setup(f.to), net[f.to], f.packet, now, reply)]
    case Local(n, e) => net[n := Step(t.setup(n), net[n], e)]
  }

  ghost predicate IsRun(t: Tree, net: Net, actions: seq<Action>)
    decreases |actions|
  {
    actions != [] ==> Enabled(t, net, actions[0]) && IsRun(t, Next(t, net, actions[0]), actions[1..])
  }

  ghost function RunOf(t: Tree, net: Net, actions: seq<Action>): Net
    requires IsRun(t, net, actions)
    decreases |actions|
  {
    if actions == [] then net else RunOf(t, Next(t, net, actions[0]), actions[1..])
  }

  // ----- The invariant -----

  /** A learned route for s names the child on the path to s. */
  ghost predicate RightRoute(t: Tree, n: byte, s: byte, route: byte)
    requires Wf(t)
  {
    route != AUTO ==> s in t.nodes && Below(t, s, n) && s != n && route == Toward(t, s, n)
  }

  ghost predicate RightRoutes(t: Tree, n: byte, routes: Table)
    requires Wf(t)
  {
    forall s: byte :: RightRoute(t, n, s, routes[s])
  }

  function Least(a: int, b: int): int {
    if a < b then a else b
  }

  predicate GatewayPong(m: Packet) {
    m.kind == Pong && !m.isAck && m.sender == GATEWAY_ADDRESS
  }

  predicate UplinkPing(m: Packet) {
    m.kind == Ping && !m.isAck && m.destination == GATEWAY_ADDRESS
  }

  /** What holds of every frame ever sent: on its way up it comes from below; on its way down it goes
      towards its destination; and a ping to the gateway and its pong carry the hops they have made. */
  ghost predicate Good(t: Tree, f: Frame)
    requires Wf(t)
  {
    var m := f.packet;
    && m.last in t.nodes && m.sender in t.nodes && m.sender != m.destination
    && m.destination != BROADCAST_ADDRESS && m.destination != m.last && m.kind != IdResponse
    && (Up(t, f) ==> Below(t, m.sender, m.last))
    && (Down(t, f) ==> m.destination in t.nodes && Below(t, m.destination, f.to))
    && (UplinkPing(m) && Up(t, f) ==> m.value == Least(MAX_HOPS, t.depth(m.sender) - t.depth(f.to)))
    && (GatewayPong(m) && Down(t, f) ==> m.value == Least(MAX_HOPS, t.depth(f.to)))
  }

  /** A node in its place, with or without an uplink yet; what its uplink check has heard is its depth. */
  ghost predicate InPlace(t: Tree, n: byte, node: Node) {
    && Consistent(t.setup(n), node) && HasParent(node.sm.stage)
    && node.config.nodeId == n && node.config.parent == t.parent(n)
    && (node.sm.stage == Uplink && t.setup(n).uplinkCheck && node.sm.pong != INVALID_HOPS ==>
          node.sm.pong == Least(MAX_HOPS, t.depth(n)))
  }

  ghost predicate GoodAir(t: Tree, n: byte, air: seq<Frame>)
    requires Wf(t)
  {
    forall f :: f in air ==> f.packet.last == n && Good(t, f)
  }

  ghost predicate GoodNode(t: Tree, n: byte, node: Node)
    requires Wf(t)
  {
    InPlace(t, n, node) && RightRoutes(t, n, node.routes) && GoodAir(t, n, node.air)
  }

  /** A node that is not ready yet has pinged nobody but the gateway, and nobody else answers it. */
  predicate Asked(net: Net, m: Packet) {
    !m.isAck ==>
      && (m.kind == Ping && m.sender in net && !net[m.sender].sm.uplinkOk ==> m.destination == GATEWAY_ADDRESS)
      && (m.kind == Pong && m.destination in net && !net[m.destination].sm.uplinkOk ==> m.sender == GATEWAY_ADDRESS)
  }

  predicate AllAsked(net: Net) {
    forall n, f :: n in net && f in net[n].air ==> Asked(net, f.packet)
  }

  ghost predicate Inv(t: Tree, net: Net) {
    Wf(t) && net.Keys == t.nodes && AllAsked(net) && forall n :: n in net ==> GoodNode(t, n, net[n])
  }

  // ----- One hop -----

  /** A packet may leave n for its destination if it comes from n or from below, or goes down. */
  ghost predicate MayLeave(t: Tree, n: byte, m: Packet)
    requires Wf(t)
  {
    && n in t.nodes && m.sender in t.nodes && m.destination != n && m.destination != BROADCAST_ADDRESS
    && m.sender != m.destination && m.kind != IdResponse
    && (Below(t, m.sender, n) ||
        (n != GATEWAY_ADDRESS && m.last == t.parent(n) && m.destination in t.nodes && Below(t, m.destination, n)))
  }

  /** The next hop goes up only with packets from below, and down only towards the destination. */
  lemma HopGoesRight(t: Tree, n: byte, routes: Table, m: Packet)
    requires Wf(t) && MayLeave(t, n, m) && RightRoutes(t, n, routes)
    ensures var f := Frame(NextHop(t.setup(n), t.parent(n), routes, m.destination, m.last), m.(last := n));
            && (Up(t, f) ==> Below(t, m.sender, n))
            && (Down(t, f) ==> m.destination in t.nodes && Below(t, m.destination, f.to))
            && (m.destination == GATEWAY_ADDRESS ==> f.to == t.parent(n))
  {
    var d := m.destination;
    assert RightRoute(t, n, d, routes[d]);
    if n != GATEWAY_ADDRESS && !Below(t, m.sender, n) {
      var c := Toward(t, d, n);
      BelowIsDeeper(t, d, n);
      assert t.setup(t.parent(c)).repeater;
    }
  }

  lemma SentIsGood(t: Tree, n: byte, routes: Table, m: Packet)
    requires Wf(t) && MayLeave(t, n, m) && RightRoutes(t, n, routes)
    requires UplinkPing(m) ==> n != GATEWAY_ADDRESS && m.value == Least(MAX_HOPS, t.depth(m.sender) - t.depth(n) + 1)
    requires GatewayPong(m) ==> m.value == Least(MAX_HOPS, t.depth(n) + 1)
    ensures Good(t, Frame(NextHop(t.setup(n), t.parent(n), routes, m.destination, m.last), m.(last := n)))
  {
    hide NextHop, Below;
    HopGoesRight(t, n, routes, m);
  }

  /** What a frame that is heard teaches is right. */
  lemma LearnedIsRight(t: Tree, f: Frame, config: NodeConfig, routes: Table)
    requires Wf(t) && Good(t, f) && (Up(t, f) || Down(t, f)) && f.to in t.nodes
    requires config.nodeId == f.to && config.parent == t.parent(f.to) && RightRoutes(t, f.to, routes)
    ensures RightRoutes(t, f.to, Learned(t.setup(f.to), config, routes, f.packet))
  {
    var m := f.packet;
    var learned := Learned(t.setup(f.to), config, routes, m);
    if Up(t, f) {
      TowardIsUnique(t, m.sender, m.last);
      forall s: byte
        ensures RightRoute(t, f.to, s, learned[s])
      {
        assert RightRoute(t, f.to, s, routes[s]);
      }
    }
  }

  /** What is heard on its way may go on, with one hop more. */
  lemma StaysOnCourse(t: Tree, f: Frame)
    requires Wf(t) && Good(t, f) && (Up(t, f) || Down(t, f)) && f.to in t.nodes && f.packet.destination != f.to
    ensures MayLeave(t, f.to, f.packet)
    ensures UplinkPing(f.packet) ==> f.to != GATEWAY_ADDRESS
    ensures UplinkPing(f.packet) ==>
              Stepped(f.packet).value == Least(MAX_HOPS, t.depth(f.packet.sender) - t.depth(f.to) + 1)
    ensures GatewayPong(f.packet) ==> Stepped(f.packet).value == Least(MAX_HOPS, t.depth(f.to) + 1)
  {
    hide Below, Stepped;
    var m := f.packet;
    if Up(t, f) { BelowParent(t, m.sender, m.last); }
    if UplinkPing(m) {
      if Down(t, f) { BelowIsDeeper(t, GATEWAY_ADDRESS, f.to); }
      BelowIsDeeper(t, m.sender, f.to);
      OneHopMore(m, t.depth(m.sender) - t.depth(f.to));
    }
    if GatewayPong(m) {
      PongIsDepth(t, f);
      OneHopMore(m, t.depth(f.to));
    }
  }

  lemma OneHopMore(m: Packet, hops: nat)
    requires (m.kind == Ping || m.kind == Pong) && m.value == Least(MAX_HOPS, hops)
    ensures Stepped(m).value == Least(MAX_HOPS, hops + 1)
  {
  }

  /** Everything a node sends when it hears a good frame is good. */
  lemma AnswersAreGood(t: Tree, f: Frame, ready: bool, config: NodeConfig, routes: Table, spare: byte)
    requires Wf(t) && Good(t, f) && (Up(t, f) || Down(t, f)) && f.to in t.nodes
    requires config.nodeId == f.to && config.parent == t.parent(f.to) && RightRoutes(t, f.to, routes)
    ensures forall a :: a in Answers(t.setup(f.to), ready, config, routes, spare, f.packet) ==>
              a.packet.last == f.to && Good(t, a)
  {
    hide NextHop, RightRoutes, Good;
    var m := f.packet;
    var n := f.to;
    GoodMeans(t, f);
    if m.destination != n {
      StaysOnCourse(t, f);
      hide Below;
      SentIsGood(t, n, routes, Stepped(m));
    } else {
      var confirmation := Confirmation(config, m).(last := m.last);
      SentIsGood(t, n, routes, confirmation);
      SentIsGood(t, n, routes, PongTo(config, m.sender));
      var last := if m.wantsAck then m.last else spare;
      SentIsGood(t, n, routes, PongTo(config, m.sender).(last := last));
      assert PongTo(config, m.sender).(last := last).(last := n) == PongTo(config, m.sender);
      assert confirmation.(last := n) == Confirmation(config, m);
    }
  }

  lemma GoodMeans(t: Tree, f: Frame)
    requires Wf(t) && Good(t, f)
    ensures f.packet.sender in t.nodes && f.packet.sender != f.packet.destination
    ensures f.packet.destination != BROADCAST_ADDRESS && f.packet.kind != IdResponse
  {
  }

  // ----- Every run keeps the invariant -----

  lemma DeliverKeepsNode(t: Tree, f: Frame, node: Node, now: nat, reply: byte)
    requires Wf(t) && Good(t, f) && (Up(t, f) || Down(t, f)) && f.to in t.nodes && GoodNode(t, f.to, node)
    requires TakesPong(node, f.packet) && !node.sm.uplinkOk ==> f.packet.sender == GATEWAY_ADDRESS
    ensures GoodNode(t, f.to, Process(t.setup(f.to), node, f.packet, now, reply))
    ensures Process(t.setup(f.to), node, f.packet, now, reply).sm.uplinkOk == node.sm.uplinkOk
  {
    hide Process, Good, Answers, RightRoutes, Learned, Consistent;
    GoodMeans(t, f);
    var u := t.setup(f.to);
    PastSearch(u, node);
    UnicastReaction(u, node, f.packet, now, reply);
    ProcessKeepsConsistent(u, node, f.packet, now, reply);
    LearnedIsRight(t, f, node.config, node.routes);
    AnswersAreGood(t, f, node.sm.uplinkOk, node.config, Learned(u, node.config, node.routes, f.packet), node.spare);
    if TakesPong(node, f.packet) && !node.sm.uplinkOk { PongIsDepth(t, f); }
  }

  /** A node past the search is active, and not looking for a parent. */
  lemma PastSearch(u: Setup, n: Node)
    requires Consistent(u, n) && HasParent(n.sm.stage)
    ensures n.sm.active && !n.sm.finding && (n.sm.uplinkOk <==> n.sm.stage == Ready)
    ensures u.gateway ==> n.sm.stage == Ready
    ensures n.sm.stage == Ready ==> !n.sm.pingActive
  {
  }

  lemma ProcessKeepsConsistent(u: Setup, n: Node, m: Packet, now: nat, reply: byte)
    requires u.Valid() && Consistent(u, n) && n.sm.active
    ensures Consistent(u, Process(u, n, m, now, reply))
  {
    hide Consistent, Process;
    StepKeepsConsistent(u, n, Hear(Hearing(m, now, reply)));
  }

  /** Where a pong of the gateway arrives, it carries the depth of that place. */
  lemma PongIsDepth(t: Tree, f: Frame)
    requires Wf(t) && Good(t, f) && (Up(t, f) || Down(t, f)) && GatewayPong(f.packet)
    ensures Down(t, f) && f.packet.value == Least(MAX_HOPS, t.depth(f.to))
  {
    if Up(t, f) { BelowIsDeeper(t, GATEWAY_ADDRESS, f.packet.last); }
  }

  lemma PingIsGood(t: Tree, n: byte, routes: Table, last: byte, target: byte)
    requires Wf(t) && n in t.nodes && target != n && target != BROADCAST_ADDRESS && RightRoutes(t, n, routes)
    ensures Good(t, Frame(NextHop(t.setup(n), t.parent(n), routes, target, last),
                          Packet(n, n, target, Ping, false, false, 1)))
  {
    SentIsGood(t, n, routes, Packet(last, n, target, Ping, false, false, 1));
  }

  /** A ping of a ready node adds nothing to the air but that ping, and leaves the node in its place. */
  lemma PingKeepsNode(t: Tree, n: byte, node: Node, target: byte, reply: byte)
    requires Wf(t) && n in t.nodes && GoodNode(t, n, node) && node.sm.uplinkOk && target != BROADCAST_ADDRESS
    ensures var p := Pinged(t.setup(n), node, target, reply);
            && GoodNode(t, n, p) && p.sm.uplinkOk
            && forall f :: f in p.air && f !in node.air ==> f.packet.sender == n && f.packet.kind == Ping
  {
    hide Post, Good, RightRoutes, NextHop, Consistent;
    var asking := node.(sm := node.sm.(pong := INVALID_HOPS, pingActive := true));
    PastSearch(t.setup(n), node);
    PingKeepsConsistent(t.setup(n), node, target, reply);
    PostSends(t.setup(n), asking, target, Ping, 1);
    PostKeeps(t.setup(n), asking, target, Ping, 1);
    if target != n { PingIsGood(t, n, node.routes, node.spare, target); }
  }

  lemma CheckKeepsNode(t: Tree, n: byte, node: Node, force: bool, now: nat, reply: byte)
    requires Wf(t) && n in t.nodes && GoodNode(t, n, node) && node.sm.uplinkOk
    ensures var p := Checked(t.setup(n), node, force, now, reply);
            && GoodNode(t, n, p) && p.sm.uplinkOk
            && forall f :: f in p.air && f !in node.air ==> f.packet.sender == n && f.packet.kind == Ping
  {
    hide Pinged, Good, RightRoutes, Consistent;
    PingKeepsNode(t, n, node, GATEWAY_ADDRESS, reply);
    CheckKeepsConsistent(t.setup(n), node, force, now, reply);
    PastSearch(t.setup(n), node);
  }

  lemma SendKeepsNode(t: Tree, n: byte, node: Node, m: Packet)
    requires Wf(t) && n in t.nodes && GoodNode(t, n, node) && Acts(t.setup(n), n, node, Send(m))
    ensures var p := Step(t.setup(n), node, Send(m));
            && GoodNode(t, n, p) && p.sm.uplinkOk == node.sm.uplinkOk
            && forall f :: f in p.air && f !in node.air ==> f.packet.kind != Ping && f.packet.kind != Pong
  {
    hide Route, Good, RightRoutes, NextHop, Consistent;
    StepKeepsConsistent(t.setup(n), node, Send(m));
    RouteKeeps(t.setup(n), node, m);
    SentIsGood(t, n, node.routes, m);
  }

  lemma TickKeepsNode(t: Tree, n: byte, node: Node, now: nat, radioOk: bool)
    requires Wf(t) && n in t.nodes && GoodNode(t, n, node) && Acts(t.setup(n), n, node, Tick(now, radioOk))
    ensures var p := Update(t.setup(n), node, now, radioOk);
            && GoodNode(t, n, p) && (node.sm.uplinkOk ==> p.sm.uplinkOk)
            && forall f :: f in p.air && f !in node.air ==>
                 f.packet.sender == n && f.packet.kind == Ping && f.packet.destination == GATEWAY_ADDRESS
  {
    hide Update, Good, RightRoutes, Consistent, NextHop;
    UpdateKeepsConsistent(t.setup(n), node, now, radioOk);
    TickPastSearch(t.setup(n), node, now, radioOk);
    PastSearch(t.setup(n), node);
    PastSearch(t.setup(n), Update(t.setup(n), node, now, radioOk));
    if n != GATEWAY_ADDRESS {
      PingIsGood(t, n, node.routes, node.spare, GATEWAY_ADDRESS);
      ToGateway(t.setup(n), t.parent(n), node.routes, node.spare);
    }
  }

  lemma ToGateway(u: Setup, parent: byte, routes: Table, last: byte)
    ensures NextHop(u, parent, routes, GATEWAY_ADDRESS, last) == parent
  {
  }

  /** Whatever a node does by itself leaves it in its place, ready if it was, and adds only frames that are
      no pings or pongs, or are its own pings: to the gateway, unless it is ready. */
  lemma LocalKeepsNode(t: Tree, n: byte, node: Node, e: Event)
    requires Wf(t) && n in t.nodes && GoodNode(t, n, node) && Acts(t.setup(n), n, node, e)
    ensures var p := Step(t.setup(n), node, e);
            && GoodNode(t, n, p) && (node.sm.uplinkOk ==> p.sm.uplinkOk)
            && forall f :: f in p.air && f !in node.air ==> MaySend(n, node.sm.uplinkOk, f.packet)
  {
    match e
    case Tick(now, radioOk) =>
      hide GoodNode, Update;
      TickKeepsNode(t, n, node, now, radioOk);
    case Send(m) =>
      hide GoodNode, Route;
      SendKeepsNode(t, n, node, m);
    case PingNode(target, reply) =>
      hide GoodNode, Pinged;
      PingKeepsNode(t, n, node, target, reply);
    case CheckUplink(force, now, reply) =>
      hide GoodNode, Checked;
      CheckKeepsNode(t, n, node, force, now, reply);
    case ClearRoutes =>
      hide Good;
      StepKeepsConsistent(t.setup(n), node, e);
  }

  predicate MaySend(n: byte, ready: bool, m: Packet) {
    || (m.kind != Ping && m.kind != Pong)
    || (m.kind == Ping && m.sender == n && (ready || m.destination == GATEWAY_ADDRESS))
  }

  /** What a node sends on hearing an asked-for message is asked for as well. */
  lemma AnswersAreAsked(net: Net, u: Setup, ready: bool, config: NodeConfig, routes: Table, spare: byte, m: Packet)
    requires Asked(net, m)
    ensures forall a :: a in Answers(u, ready, config, routes, spare, m) ==> Asked(net, a.packet)
  {
    hide NextHop;
  }

  /** Nodes only ever become ready, so what was asked for stays so. */
  lemma AskedStays(net: Net, after: Net, m: Packet)
    requires Asked(net, m) && after.Keys == net.Keys
    requires forall x :: x in net && net[x].sm.uplinkOk ==> after[x].sm.uplinkOk
    ensures Asked(after, m)
  {
  }

  lemma DeliverKeepsInv(t: Tree, net: Net, f: Frame, now: nat, reply: byte)
    requires Inv(t, net) && Enabled(t, net, Deliver(f, now, reply))
    ensures Inv(t, Next(t, net, Deliver(f, now, reply)))
    ensures Next(t, net, Deliver(f, now, reply))[f.to].sm.uplinkOk == net[f.to].sm.uplinkOk
  {
    hide Process, Good, Asked, Answers, Consistent, RightRoutes, Wf, Up, Down;
    var u, node, m := t.setup(f.to), net[f.to], f.packet;
    var after := Next(t, net, Deliver(f, now, reply));
    assert GoodNode(t, m.last, net[m.last]) && GoodNode(t, f.to, node);
    assert Asked(net, m);
    PongAsked(net, node, m);
    GoodMeans(t, f);
    DeliverKeepsNode(t, f, node, now, reply);
    PastSearch(u, node);
    UnicastReaction(u, node, m, now, reply);
    hide GoodNode;
    AnswersAreAsked(net, u, node.sm.uplinkOk, node.config, Learned(u, node.config, node.routes, m), node.spare, m);
    forall x, a | x in after && a in after[x].air
      ensures Asked(after, a.packet)
    {
      assert Asked(net, a.packet);
      AskedStays(net, after, a.packet);
    }
  }

  lemma PongAsked(net: Net, node: Node, m: Packet)
    requires Asked(net, m) && node.config.nodeId in net && net[node.config.nodeId] == node
    ensures TakesPong(node, m) && !node.sm.uplinkOk ==> m.sender == GATEWAY_ADDRESS
  {
  }

  lemma LocalKeepsInv(t: Tree, net: Net, n: byte, e: Event)
    requires Inv(t, net) && Enabled(t, net, Local(n, e))
    ensures Inv(t, Next(t, net, Local(n, e)))
    ensures net[n].sm.uplinkOk ==> Next(t, net, Local(n, e))[n].sm.uplinkOk
  {
    hide Step, GoodNode, Asked, Wf, Acts, MaySend;
    var after := Next(t, net, Local(n, e));
    assert GoodNode(t, n, net[n]);
    LocalKeepsNode(t, n, net[n], e);
    forall x, a | x in after && a in after[x].air
      ensures Asked(after, a.packet)
    {
      if x == n && a !in net[n].air {
        MaySendIsAsked(after, n, net[n].sm.uplinkOk, a.packet);
      } else {
        assert Asked(net, a.packet);
        AskedStays(net, after, a.packet);
      }
    }
  }

  lemma MaySendIsAsked(net: Net, n: byte, ready: bool, m: Packet)
    requires MaySend(n, ready, m) && n in net && (ready ==> net[n].sm.uplinkOk)
    ensures Asked(net, m)
  {
  }

  function Actor(a: Action): byte {
    match a
    case Deliver(f, _, _) => f.to
    case Local(n, _) => n
  }

  lemma OnlyActorChanges(t: Tree, net: Net, a: Action)
    requires Enabled(t, net, a)
    ensures Actor(a) in net && Next(t, net, a).Keys == net.Keys
    ensures forall x :: x in net && x != Actor(a) ==> Next(t, net, a)[x] == net[x]
  {
    hide Process, Step, Acts, Up, Down;
  }

  /** Every step keeps the invariant, and whoever is ready stays ready. */
  lemma NextKeepsInv(t: Tree, net: Net, a: Action)
    requires Inv(t, net) && Enabled(t, net, a)
    ensures Inv(t, Next(t, net, a)) && Next(t, net, a).Keys == net.Keys
    ensures forall x :: x in net && net[x].sm.uplinkOk ==> Next(t, net, a)[x].sm.uplinkOk
  {
    hide Inv, Enabled, Next;
    OnlyActorChanges(t, net, a);
    match a
    case Deliver(f, now, reply) => DeliverKeepsInv(t, net, f, now, reply);
    case Local(n, e) => LocalKeepsInv(t, net, n, e);
  }

  lemma {:induction false} RunKeepsInv(t: Tree, net: Net, actions: seq<Action>)
    requires Inv(t, net) && IsRun(t, net, actions)
    ensures Inv(t, RunOf(t, net, actions)) && RunOf(t, net, actions).Keys == net.Keys
    ensures forall x :: x in net && net[x].sm.uplinkOk ==> RunOf(t, net, actions)[x].sm.uplinkOk
    decreases |actions|
  {
    if actions != [] {
      hide Inv, Next, Enabled;
      NextKeepsInv(t, net, actions[0]);
      RunKeepsInv(t, Next(t, net, actions[0]), actions[1..]);
    }
  }

  /** Everybody in its place in the tree, ready or not, with nothing heard, learned or sent yet. */
  ghost predicate Fresh(t: Tree, net: Net) {
    && Wf(t) && net.Keys == t.nodes
    && forall n :: n in net ==>
         && InPlace(t, n, net[n]) && (net[n].sm.stage == Uplink ==> net[n].sm.pong == INVALID_HOPS)
         && net[n].routes == seq(256, _ => AUTO) && net[n].air == []
  }

  lemma FreshIsInv(t: Tree, net: Net)
    requires Fresh(t, net)
    ensures Inv(t, net)
  {
    hide InPlace;
  }

  /** In every run, a route that a node has learned for s names its child on the path to s. */
  lemma LearnedRoutesAreRight(t: Tree, net: Net, actions: seq<Action>, n: byte, s: byte)
    requires Fresh(t, net) && IsRun(t, net, actions) && n in t.nodes
    ensures var end := RunOf(t, net, actions);
            && n in end
            && (end[n].routes[s] != AUTO ==>
                  s in t.nodes && s != n && Below(t, s, n) && end[n].routes[s] == Toward(t, s, n))
  {
    FreshIsInv(t, net);
    RunKeepsInv(t, net, actions);
    var end := RunOf(t, net, actions);
    assert GoodNode(t, n, end[n]);
    assert RightRoute(t, n, s, end[n].routes[s]);
  }

  /** In every run, a pong of the gateway that is heard stands on the path to its destination and carries the
      depth of where it is heard, up to 254: at its destination, the destination's own depth, and never 255. */
  lemma PongCarriesDepth(t: Tree, net: Net, actions: seq<Action>, f: Frame)
    requires Fresh(t, net) && IsRun(t, net, actions)
    requires Enabled(t, RunOf(t, net, actions), Deliver(f, 0, 0)) && GatewayPong(f.packet)
    ensures f.packet.destination in t.nodes && Below(t, f.packet.destination, f.to)
    ensures f.packet.last == t.parent(f.to) && f.to != GATEWAY_ADDRESS
    ensures f.packet.value == Least(MAX_HOPS, t.depth(f.to)) && f.packet.value != INVALID_HOPS
  {
    hide Fresh, Below, Wf;
    HeardIsGood(t, net, actions, f);
    PongIsDepth(t, f);
  }

  lemma HeardIsGood(t: Tree, net: Net, actions: seq<Action>, f: Frame)
    requires Fresh(t, net) && IsRun(t, net, actions)
    requires Enabled(t, RunOf(t, net, actions), Deliver(f, 0, 0))
    ensures Wf(t) && Good(t, f) && (Up(t, f) || Down(t, f)) && f.to in t.nodes
  {
    hide Fresh, Good, AllAsked, RightRoutes, InPlace, IsRun, RunOf, Wf;
    FreshIsInv(t, net);
    RunKeepsInv(t, net, actions);
    assert GoodNode(t, f.packet.last, RunOf(t, net, actions)[f.packet.last]);
  }

  /** In every run, whenever a node becomes ready by its uplink check, it has its true depth, up to 254, for its
      distance. */
  lemma UplinkCheckStoresDepth(t: Tree, net: Net, actions: seq<Action>, n: byte, now: nat, radioOk: bool)
    requires Fresh(t, net) && IsRun(t, net, actions) && n in t.nodes
    requires n in RunOf(t, net, actions) && RunOf(t, net, actions)[n].sm.stage == Uplink && t.setup(n).uplinkCheck
    requires Enabled(t, RunOf(t, net, actions), Local(n, Tick(now, radioOk)))
    ensures var end := Next(t, RunOf(t, net, actions), Local(n, Tick(now, radioOk)));
            end[n].sm.stage == Ready ==> end[n].config.distance == Least(MAX_HOPS, t.depth(n))
  {
    hide Fresh, Update;
    FreshIsInv(t, net);
    RunKeepsInv(t, net, actions);
    var node := RunOf(t, net, actions)[n];
    assert GoodNode(t, n, node);
    TickPastSearch(t.setup(n), node, now, radioOk);
  }

  /** In every run, an uplink ping arrives at the gateway with the depth of its sender, up to 254. */
  lemma PingCarriesDepth(t: Tree, net: Net, actions: seq<Action>, f: Frame)
    requires Fresh(t, net) && IsRun(t, net, actions)
    requires Enabled(t, RunOf(t, net, actions), Deliver(f, 0, 0)) && UplinkPing(f.packet)
    ensures f.packet.sender in t.nodes && Below(t, f.packet.sender, f.packet.last)
    ensures f.packet.last != GATEWAY_ADDRESS && f.to == t.parent(f.packet.last)
    ensures f.to == GATEWAY_ADDRESS ==> f.packet.value == Least(MAX_HOPS, t.depth(f.packet.sender))
  {
    hide Fresh, IsRun, RunOf, Enabled;
    HeardIsGood(t, net, actions, f);
    if Down(t, f) { BelowIsDeeper(t, GATEWAY_ADDRESS, f.to); }
  }

  // ----- The round trip of an uplink check -----

  lemma RunPrepend(t: Tree, net: Net, a: Action, rest: seq<Action>)
    requires Enabled(t, net, a) && IsRun(t, Next(t, net, a), rest)
    ensures IsRun(t, net, [a] + rest) && RunOf(t, net, [a] + rest) == RunOf(t, Next(t, net, a), rest)
  {
    hide Enabled, Next;
    assert ([a] + rest)[1..] == rest;
  }

  lemma {:induction false} RunAppend(t: Tree, net: Net, a: seq<Action>, b: seq<Action>)
    requires IsRun(t, net, a) && IsRun(t, RunOf(t, net, a), b)
    ensures IsRun(t, net, a + b) && RunOf(t, net, a + b) == RunOf(t, RunOf(t, net, a), b)
    decreases |a|
  {
    hide Enabled, Next;
    if a == [] {
      assert a + b == b;
    } else {
      assert (a + b)[1..] == a[1..] + b;
      RunAppend(t, Next(t, net, a[0]), a[1..], b);
    }
  }

  /** Every node on the path to s down to the given depth has a route for s. */
  ghost predicate PathKnown(t: Tree, net: Net, s: byte, from: nat)
    requires Inv(t, net) && s in t.nodes
  {
    forall x :: x in t.nodes && x != s && Below(t, s, x) && t.depth(x) >= from ==> net[x].routes[s] != AUTO
  }

  /** Every node between s and the gateway is ready. */
  ghost predicate PathReady(t: Tree, net: Net, s: byte)
    requires Inv(t, net) && s in t.nodes
  {
    forall x :: x in t.nodes && x != s && Below(t, s, x) ==> net[x].sm.uplinkOk
  }

  lemma {:induction false} OneAncestorPerDepth(t: Tree, s: byte, x: byte, y: byte)
    requires Wf(t) && s in t.nodes && Below(t, s, x) && Below(t, s, y) && t.depth(x) == t.depth(y)
    ensures x == y
    decreases t.depth(s)
  {
    BelowIsDeeper(t, s, x);
    BelowIsDeeper(t, s, y);
    if s != x && s != y { OneAncestorPerDepth(t, t.parent(s), x, y); }
  }

  function PingOf(s: byte, last: byte, value: byte): Packet {
    Packet(last, s, GATEWAY_ADDRESS, Ping, false, false, value)
  }

  function PongFor(s: byte, last: byte, value: byte): Packet {
    Packet(last, GATEWAY_ADDRESS, s, Pong, false, false, value)
  }

  lemma NodePassesPing(t: Tree, c: byte, s: byte, node: Node, value: byte)
    requires Wf(t) && s in t.nodes && c in t.nodes && c != GATEWAY_ADDRESS && s != t.parent(c)
    requires node.sm.uplinkOk && !node.sm.finding
    requires node.config.nodeId == t.parent(c) && node.config.parent == t.parent(t.parent(c))
    ensures var p := t.parent(c);
            var m := PingOf(s, c, value);
            var r := Process(t.setup(p), node, m, 0, 0);
            && r.routes[s] == c
            && (p != GATEWAY_ADDRESS ==> Frame(t.parent(p), PingOf(s, p, Stepped(m).value)) in r.air)
            && (p == GATEWAY_ADDRESS ==> Frame(c, PongFor(s, GATEWAY_ADDRESS, 1)) in r.air)
  {
    hide Process;
    var p := t.parent(c);
    var m := PingOf(s, c, value);
    UnicastReaction(t.setup(p), node, m, 0, 0);
    var sent := Answers(t.setup(p), true, node.config, Learned(t.setup(p), node.config, node.routes, m), node.spare, m);
    assert |sent| == 1 && sent[0] in Process(t.setup(p), node, m, 0, 0).air;
  }

  /** Hearing a ping on its way up, a node learns the route and passes it on, or answers. */
  lemma ClimbOne(t: Tree, net: Net, s: byte, c: byte, value: byte)
    returns (after: Net, next: byte)
    requires Inv(t, net) && s in t.nodes && c in t.nodes && c != GATEWAY_ADDRESS && Below(t, s, c)
    requires PathReady(t, net, s)
    requires Frame(t.parent(c), PingOf(s, c, value)) in net[c].air && PathKnown(t, net, s, t.depth(c))
    ensures Enabled(t, net, Deliver(Frame(t.parent(c), PingOf(s, c, value)), 0, 0))
    ensures after == Next(t, net, Deliver(Frame(t.parent(c), PingOf(s, c, value)), 0, 0))
    ensures Inv(t, after) && PathKnown(t, after, s, t.depth(t.parent(c))) && PathReady(t, after, s)
    ensures t.parent(c) != s && after[s] == net[s]
    ensures t.parent(c) != GATEWAY_ADDRESS ==>
              Frame(t.parent(t.parent(c)), PingOf(s, t.parent(c), next)) in after[t.parent(c)].air
    ensures t.parent(c) == GATEWAY_ADDRESS ==> Frame(c, PongFor(s, GATEWAY_ADDRESS, 1)) in after[GATEWAY_ADDRESS].air
  {
    hide Process, Below, PathKnown, PathReady, Inv, Wf;
    var p := t.parent(c);
    var f := Frame(p, PingOf(s, c, value));
    ParentOnPath(t, net, s, c);
    assert Enabled(t, net, Deliver(f, 0, 0));
    after := Next(t, net, Deliver(f, 0, 0));
    OnlyActorChanges(t, net, Deliver(f, 0, 0));
    NextKeepsInv(t, net, Deliver(f, 0, 0));
    NodePassesPing(t, c, s, net[p], value);
    next := Stepped(f.packet).value;
    PathGrows(t, net, after, s, c);
    PathStaysReady(t, net, after, s);
  }

  lemma ParentOnPath(t: Tree, net: Net, s: byte, c: byte)
    requires Inv(t, net) && s in t.nodes && c in t.nodes && c != GATEWAY_ADDRESS && Below(t, s, c)
    requires PathReady(t, net, s)
    ensures var p := t.parent(c);
            && c in net && p in net && s in net && p != s && Below(t, s, p)
            && net[p].sm.uplinkOk && !net[p].sm.finding
            && net[p].config.nodeId == p && net[p].config.parent == t.parent(p)
    ensures net.Keys == t.nodes && Wf(t) && c != AUTO
  {
    hide Below, RightRoutes, Good, Consistent, AllAsked;
    BelowParent(t, s, c);
    var p := t.parent(c);
    assert p in net && GoodNode(t, p, net[p]);
    PastSearch(t.setup(p), net[p]);
  }

  lemma PathGrows(t: Tree, net: Net, after: Net, s: byte, c: byte)
    requires Inv(t, net) && Inv(t, after) && s in t.nodes && c in t.nodes && c != GATEWAY_ADDRESS && Below(t, s, c)
    requires PathKnown(t, net, s, t.depth(c)) && after[t.parent(c)].routes[s] != AUTO
    requires forall x :: x in t.nodes && x != t.parent(c) ==> after[x] == net[x]
    ensures PathKnown(t, after, s, t.depth(t.parent(c)))
  {
    hide GoodNode, AllAsked;
    BelowParent(t, s, c);
    forall x | x in t.nodes && x != s && Below(t, s, x) && t.depth(x) >= t.depth(t.parent(c))
      ensures after[x].routes[s] != AUTO
    {
      if t.depth(x) == t.depth(t.parent(c)) { OneAncestorPerDepth(t, s, x, t.parent(c)); }
    }
  }

  lemma NodePassesPong(t: Tree, s: byte, y: byte, node: Node, value: byte)
    requires Wf(t) && s in t.nodes && y in t.nodes && y != GATEWAY_ADDRESS && y != s && Below(t, s, y)
    requires GoodNode(t, y, node) && node.sm.uplinkOk && node.routes[s] != AUTO
    ensures var m := PongFor(s, t.parent(y), value);
            var r := Process(t.setup(y), node, m, 0, 0);
            && r.routes == node.routes
            && Frame(Toward(t, s, y), PongFor(s, y, Stepped(m).value)) in r.air
  {
    hide Process, Good, Consistent;
    var m := PongFor(s, t.parent(y), value);
    PastSearch(t.setup(y), node);
    UnicastReaction(t.setup(y), node, m, 0, 0);
    assert RightRoute(t, y, s, node.routes[s]);
    assert s != GATEWAY_ADDRESS by { BelowIsDeeper(t, s, y); }
    assert t.setup(t.parent(Toward(t, s, y))).repeater;
    var sent := Answers(t.setup(y), true, node.config, node.routes, node.spare, m);
    assert |sent| == 1 && sent[0] in Process(t.setup(y), node, m, 0, 0).air;
  }

  /** Hearing the pong on its way down, a node passes it on along the learned route. */
  lemma DescendOne(t: Tree, net: Net, s: byte, y: byte, value: byte)
    returns (after: Net, next: byte)
    requires Inv(t, net) && s in t.nodes && y in t.nodes && y != GATEWAY_ADDRESS && y != s && Below(t, s, y)
    requires Frame(y, PongFor(s, t.parent(y), value)) in net[t.parent(y)].air && PathKnown(t, net, s, 0)
    requires PathReady(t, net, s)
    ensures Enabled(t, net, Deliver(Frame(y, PongFor(s, t.parent(y), value)), 0, 0))
    ensures after == Next(t, net, Deliver(Frame(y, PongFor(s, t.parent(y), value)), 0, 0))
    ensures Inv(t, after) && PathKnown(t, after, s, 0) && PathReady(t, after, s) && after[s] == net[s]
    ensures Frame(Toward(t, s, y), PongFor(s, y, next)) in after[y].air
  {
    hide Process, Below, GoodNode, AllAsked;
    var f := Frame(y, PongFor(s, t.parent(y), value));
    after := Next(t, net, Deliver(f, 0, 0));
    NextKeepsInv(t, net, Deliver(f, 0, 0));
    assert GoodNode(t, y, net[y]);
    NodePassesPong(t, s, y, net[y], value);
    next := Stepped(f.packet).value;
  }

  /** A delivery at a node on the path between s and the gateway. */
  ghost predicate OnPath(t: Tree, s: byte, a: Action)
    requires Wf(t) && s in t.nodes
  {
    a.Deliver? && a.f.to != s && Below(t, s, a.f.to)
  }

  function PongAt(t: Tree, s: byte): Frame {
    Frame(s, PongFor(s, t.parent(s), Least(MAX_HOPS, t.depth(s)) as byte))
  }

  ghost predicate PongThere(t: Tree, net: Net, s: byte)
    requires Inv(t, net) && s in t.nodes
  {
    PongAt(t, s) in net[t.parent(s)].air
  }

  /** Deliveries on the path that bring the pong to the parent of s, and leave s alone. */
  ghost predicate BringsPong(t: Tree, net: Net, s: byte, actions: seq<Action>)
    requires Inv(t, net) && s in t.nodes
  {
    && IsRun(t, net, actions) && (forall a :: a in actions ==> OnPath(t, s, a))
    && Inv(t, RunOf(t, net, actions)) && PongThere(t, RunOf(t, net, actions), s)
    && RunOf(t, net, actions)[s] == net[s]
  }

  lemma BringsPongMeans(t: Tree, net: Net, s: byte, actions: seq<Action>)
    requires Inv(t, net) && s in t.nodes && BringsPong(t, net, s, actions)
    ensures IsRun(t, net, actions)
    ensures var end := RunOf(t, net, actions);
            Inv(t, end) && PongThere(t, end, s) && s in end && end[s] == net[s]
    ensures forall i :: 0 <= i < |actions| ==> OnPath(t, s, actions[i])
  {
    hide IsRun, RunOf, OnPath, PongThere, GoodNode, AllAsked, Wf;
  }

  lemma BringsPongBefore(t: Tree, net: Net, s: byte, a: Action, rest: seq<Action>)
    requires Inv(t, net) && s in t.nodes && OnPath(t, s, a) && Enabled(t, net, a) && Inv(t, Next(t, net, a))
    requires BringsPong(t, Next(t, net, a), s, rest)
    ensures BringsPong(t, net, s, [a] + rest)
  {
    hide Inv, Enabled, Process, PongThere;
    assert ([a] + rest)[1..] == rest;
  }

  lemma {:induction false} PongDescends(t: Tree, net: Net, s: byte, y: byte, value: byte)
    returns (actions: seq<Action>)
    requires Inv(t, net) && s in t.nodes && y in t.nodes && y != GATEWAY_ADDRESS && Below(t, s, y)
    requires Frame(y, PongFor(s, t.parent(y), value)) in net[t.parent(y)].air && PathKnown(t, net, s, 0)
    requires PathReady(t, net, s)
    ensures BringsPong(t, net, s, actions) && |actions| == t.depth(s) - t.depth(y)
    decreases t.depth(s) - t.depth(y)
  {
    BelowIsDeeper(t, s, y);
    if y == s {
      actions := [];
      assert GoodNode(t, t.parent(s), net[t.parent(s)]);
    } else {
      hide Inv, Enabled, Next, PathKnown, PathReady, BringsPong;
      var f := Frame(y, PongFor(s, t.parent(y), value));
      var after, next := DescendOne(t, net, s, y, value);
      var z := Toward(t, s, y);
      BelowIsDeeper(t, s, z);
      var rest := PongDescends(t, after, s, z, next);
      actions := [Deliver(f, 0, 0)] + rest;
      BringsPongBefore(t, net, s, Deliver(f, 0, 0), rest);
    }
  }

  lemma {:induction false} PingClimbs(t: Tree, net: Net, s: byte, c: byte, value: byte)
    returns (actions: seq<Action>)
    requires Inv(t, net) && s in t.nodes && c in t.nodes && c != GATEWAY_ADDRESS && Below(t, s, c)
    requires Frame(t.parent(c), PingOf(s, c, value)) in net[c].air && PathKnown(t, net, s, t.depth(c))
    requires PathReady(t, net, s)
    ensures BringsPong(t, net, s, actions) && |actions| == t.depth(c) + t.depth(s) - 1
    decreases t.depth(c)
  {
    hide Enabled, Next, PathKnown, PathReady, BringsPong, GoodNode, AllAsked;
    var f := Frame(t.parent(c), PingOf(s, c, value));
    var after, next := ClimbOne(t, net, s, c, value);
    BelowParent(t, s, c);
    var rest;
    if t.parent(c) == GATEWAY_ADDRESS {
      rest := PongDescends(t, after, s, c, 1);
    } else {
      rest := PingClimbs(t, after, s, t.parent(c), next);
    }
    actions := [Deliver(f, 0, 0)] + rest;
    BringsPongBefore(t, net, s, Deliver(f, 0, 0), rest);
  }

  /** An uplink ping that is on the air at s, and heard at each hop, comes back as a pong over the same nodes. */
  lemma PingReturns(t: Tree, net: Net, s: byte) returns (actions: seq<Action>)
    requires Inv(t, net) && s in t.nodes && s != GATEWAY_ADDRESS && PathReady(t, net, s)
    requires Frame(t.parent(s), PingOf(s, s, 1)) in net[s].air
    ensures BringsPong(t, net, s, actions) && |actions| == 2 * t.depth(s) - 1
  {
    hide GoodNode, AllAsked, PathReady, BringsPong;
    forall x | x in t.nodes && x != s && Below(t, s, x) && t.depth(x) >= t.depth(s)
      ensures false
    {
      BelowIsDeeper(t, s, x);
    }
    actions := PingClimbs(t, net, s, s, 1);
  }

  lemma PathStaysReady(t: Tree, net: Net, after: Net, s: byte)
    requires Inv(t, net) && Inv(t, after) && s in t.nodes && PathReady(t, net, s)
    requires forall x :: x in net && net[x].sm.uplinkOk ==> after[x].sm.uplinkOk
    ensures PathReady(t, after, s)
  {
    hide GoodNode, AllAsked;
  }

  /** From any state that a run can reach: when s, ready like all above it, checks its uplink and its ping is
      heard at each hop, the pong comes back over the same nodes, with the depth of s, after 2 k - 1 deliveries
      for depth k. */
  lemma UplinkCheckIsAnswered(t: Tree, net: Net, s: byte, now: nat, reply: byte)
    returns (actions: seq<Action>)
    requires Inv(t, net) && s in t.nodes && s != GATEWAY_ADDRESS && net[s].sm.uplinkOk && PathReady(t, net, s)
    ensures IsRun(t, net, actions) && |actions| == 2 * t.depth(s)
    ensures actions[0] == Local(s, CheckUplink(true, now, reply))
    ensures forall i :: 0 < i < |actions| ==> OnPath(t, s, actions[i])
    ensures Inv(t, RunOf(t, net, actions)) && PongThere(t, RunOf(t, net, actions), s)
  {
    hide *;
    var ask := Local(s, CheckUplink(true, now, reply));
    var after := Checks(t, net, s, now, reply);
    var rest := PingReturns(t, after, s);
    BringsPongMeans(t, after, s, rest);
    RunPrepend(t, net, ask, rest);
    actions := [ask] + rest;
  }

  lemma Checks(t: Tree, net: Net, s: byte, now: nat, reply: byte) returns (after: Net)
    requires Inv(t, net) && s in t.nodes && s != GATEWAY_ADDRESS && net[s].sm.uplinkOk && PathReady(t, net, s)
    ensures Enabled(t, net, Local(s, CheckUplink(true, now, reply)))
    ensures after == Next(t, net, Local(s, CheckUplink(true, now, reply)))
    ensures Inv(t, after) && PathReady(t, after, s)
    ensures Frame(t.parent(s), PingOf(s, s, 1)) in after[s].air
  {
    var ask := Local(s, CheckUplink(true, now, reply));
    assert GoodNode(t, s, net[s]);
    PastSearch(t.setup(s), net[s]);
    PingIsSent(t.setup(s), net[s], now, reply);
    hide GoodNode, AllAsked, Checked;
    after := Next(t, net, ask);
    NextKeepsInv(t, net, ask);
    PathStaysReady(t, net, after, s);
  }

  lemma PingIsSent(u: Setup, n: Node, now: nat, reply: byte)
    requires !n.sm.finding && !n.sm.pingActive && n.config.nodeId != GATEWAY_ADDRESS
    ensures UplinkPingOf(n.config) in Checked(u, n, true, now, reply).air
  {
  }

  // ----- From an id to an uplink -----

  /** A node that has an id pings the gateway at its next tick. */
  lemma TickAsks(u: Setup, n: Node, now: nat)
    requires n.sm.stage == Id && n.config.nodeId != AUTO && !n.sm.finding && u.uplinkCheck
    ensures var p := Update(u, n, now, true);
            && p.sm.stage == Uplink && p.sm.pingActive && UplinkPingOf(n.config) in p.air
  {
    hide Switch;
    EnteringUplink(u, n, now);
    SwitchStage(u, n, Uplink, now);
  }

  /** And is ready at the tick after it has heard a pong. */
  lemma TickAfterPong(u: Setup, n: Node, now: nat)
    requires n.sm.stage == Uplink && u.uplinkCheck && n.sm.pong != INVALID_HOPS
    ensures var p := Update(u, n, now, true);
            p.sm.stage == Ready && p.sm.uplinkOk && p.config.distance == n.sm.pong
  {
    hide Switch;
    var up := n.(sm := n.sm.(lastCheck := now), config := n.config.(distance := n.sm.pong));
    EnteringReady(u, up, now);
    SwitchStage(u, up, Ready, now);
  }

  lemma HearsPong(t: Tree, net: Net, s: byte, now: nat) returns (after: Net)
    requires Inv(t, net) && s in t.nodes && s != GATEWAY_ADDRESS
    requires net[s].sm.stage == Uplink && net[s].sm.pingActive && PongThere(t, net, s)
    ensures Enabled(t, net, Deliver(PongAt(t, s), now, 0)) && after == Next(t, net, Deliver(PongAt(t, s), now, 0))
    ensures Inv(t, after) && after[s].sm.stage == Uplink && after[s].sm.pong == Least(MAX_HOPS, t.depth(s))
  {
    hide Process, AllAsked;
    var node, heard := net[s], Deliver(PongAt(t, s), now, 0);
    assert GoodNode(t, s, node);
    PastSearch(t.setup(s), node);
    UnicastReaction(t.setup(s), node, PongAt(t, s).packet, now, 0);
    assert Enabled(t, net, heard);
    NextKeepsInv(t, net, heard);
    hide GoodNode;
    after := Next(t, net, heard);
  }

  lemma TicksReady(t: Tree, net: Net, s: byte, now: nat) returns (after: Net)
    requires Inv(t, net) && s in t.nodes && s != GATEWAY_ADDRESS && t.setup(s).uplinkCheck
    requires net[s].sm.stage == Uplink && net[s].sm.pong != INVALID_HOPS
    ensures Enabled(t, net, Local(s, Tick(now, true))) && after == Next(t, net, Local(s, Tick(now, true)))
    ensures Inv(t, after) && s in after && after[s].sm.uplinkOk && after[s].config.distance == net[s].sm.pong
  {
    hide Update, AllAsked, GoodNode;
    var tick := Local(s, Tick(now, true));
    TickAfterPong(t.setup(s), net[s], now);
    assert Enabled(t, net, tick);
    NextKeepsInv(t, net, tick);
    after := Next(t, net, tick);
  }

  lemma DepthIsHops(t: Tree, s: byte)
    ensures Least(MAX_HOPS, t.depth(s)) != INVALID_HOPS
  {
  }

  lemma RunOfNone(t: Tree, net: Net)
    ensures IsRun(t, net, []) && RunOf(t, net, []) == net
  {
  }

  /** The last two steps: s hears its pong, and ticks. */
  lemma PongMakesReady(t: Tree, net: Net, s: byte, now: nat) returns (actions: seq<Action>)
    requires Inv(t, net) && s in t.nodes && s != GATEWAY_ADDRESS && t.setup(s).uplinkCheck
    requires net[s].sm.stage == Uplink && net[s].sm.pingActive && PongThere(t, net, s)
    ensures actions == [Deliver(PongAt(t, s), now, 0), Local(s, Tick(now, true))] && IsRun(t, net, actions)
    ensures var end := RunOf(t, net, actions);
            Inv(t, end) && s in end && end[s].sm.uplinkOk && end[s].config.distance == Least(MAX_HOPS, t.depth(s))
  {
    hide *;
    var heard, tick := Deliver(PongAt(t, s), now, 0), Local(s, Tick(now, true));
    var after := HearsPong(t, net, s, now);
    DepthIsHops(t, s);
    var end := TicksReady(t, after, s, now);
    RunOfNone(t, end);
    RunPrepend(t, after, tick, []);
    RunPrepend(t, net, heard, [tick] + []);
    actions := [heard, tick];
    assert actions == [heard] + ([tick] + []);
  }

  /** The way of a node with an id and a parent, but no uplink yet, into the network: it ticks and asks; its ping
      and the pong pass every node above it; it hears the pong, ticks again, and is ready, with its depth, up to
      254, for its distance. */
  lemma NodeBecomesReady(t: Tree, net: Net, s: byte, asked: nat, heard: nat) returns (actions: seq<Action>)
    requires Inv(t, net) && s in t.nodes && s != GATEWAY_ADDRESS && t.setup(s).uplinkCheck
    requires net[s].sm.stage == Id && PathReady(t, net, s)
    ensures IsRun(t, net, actions) && |actions| == 2 * t.depth(s) + 2
    ensures actions[0] == Local(s, Tick(asked, true)) && actions[|actions| - 1] == Local(s, Tick(heard, true))
    ensures actions[|actions| - 2] == Deliver(PongAt(t, s), heard, 0)
    ensures forall i :: 0 < i < |actions| - 2 ==> OnPath(t, s, actions[i])
    ensures var end := RunOf(t, net, actions);
            Inv(t, end) && s in end && end[s].sm.uplinkOk && end[s].config.distance == Least(MAX_HOPS, t.depth(s))
  {
    hide *;
    var ask := Local(s, Tick(asked, true));
    var after := Asks(t, net, s, asked);
    var rest := PingReturns(t, after, s);
    BringsPongMeans(t, after, s, rest);
    var last := PongMakesReady(t, RunOf(t, after, rest), s, heard);
    RunAppend(t, after, rest, last);
    RunPrepend(t, net, ask, rest + last);
    actions := [ask] + (rest + last);
  }

  lemma Asks(t: Tree, net: Net, s: byte, now: nat) returns (after: Net)
    requires Inv(t, net) && s in t.nodes && s != GATEWAY_ADDRESS && t.setup(s).uplinkCheck
    requires net[s].sm.stage == Id && PathReady(t, net, s)
    ensures Enabled(t, net, Local(s, Tick(now, true))) && after == Next(t, net, Local(s, Tick(now, true)))
    ensures Inv(t, after) && PathReady(t, after, s)
    ensures after[s].sm.stage == Uplink && after[s].sm.pingActive
    ensures Frame(t.parent(s), PingOf(s, s, 1)) in after[s].air
  {
    hide Update;
    var ask := Local(s, Tick(now, true));
    assert GoodNode(t, s, net[s]);
    PastSearch(t.setup(s), net[s]);
    TickAsks(t.setup(s), net[s], now);
    assert Enabled(t, net, ask);
    after := Next(t, net, ask);
    NextKeepsInv(t, net, ask);
    hide GoodNode, AllAsked;
    PathStaysReady(t, net, after, s);
  }

  // ----- A network -----

  function NodeAt(id: byte, parent: byte, stage: Stage): Node {
    var sm := Machine(stage, 0, 0, 0, false, false, stage == Ready, false, true, 0, 0, 0, false, 0);
    Node(NodeConfig(id, parent, id), NodeConfig(id, parent, id), sm, seq(256, _ => AUTO), [], 0)
  }

  lemma ChainTree() returns (t: Tree)
    ensures Wf(t) && t.nodes == {0, 1, 2}
    ensures t.parent(1) == 0 && t.parent(2) == 1 && t.depth(2) == 2 && t.setup(2).uplinkCheck
  {
    var parent := (n: byte) => if n > 0 then (n - 1) as byte else 0;
    var depth := (n: byte) => n as nat;
    var setup := (n: byte) => Setup(n == 0, true, n, AUTO, false, true, _ => true);
    t := Tree({0, 1, 2}, parent, depth, setup);
  }

  lemma Chain() returns (t: Tree, net: Net)
    ensures Fresh(t, net) && Inv(t, net) && 2 in t.nodes && t.depth(2) == 2
    ensures t.setup(2).uplinkCheck && net[2].sm.stage == Id && PathReady(t, net, 2)
  {
    t := ChainTree();
    net := map[0 := NodeAt(0, 0, Ready), 1 := NodeAt(1, 0, Ready), 2 := NodeAt(2, 1, Id)];
    assert InPlace(t, 0, net[0]) && InPlace(t, 1, net[1]) && InPlace(t, 2, net[2]);
    hide InPlace, Wf;
    FreshIsInv(t, net);
  }

  /** A gateway, a repeater below it, and a node below that which has just found them: it asks, hears that it is
      two hops out, and is ready. */
  lemma ChainOfThree() returns (t: Tree, net: Net, actions: seq<Action>)
    ensures Fresh(t, net) && 2 in t.nodes && t.depth(2) == 2
    ensures 2 in net && !net[2].sm.uplinkOk
    ensures IsRun(t, net, actions) && |actions| == 6
    ensures var end := RunOf(t, net, actions);
            2 in end && end[2].sm.uplinkOk && end[2].config.distance == 2
  {
    t, net := Chain();
    assert GoodNode(t, 2, net[2]);
    PastSearch(t.setup(2), net[2]);
    hide GoodNode, Fresh, PathReady, IsRun, RunOf, AllAsked;
    actions := NodeBecomesReady(t, net, 2, 0, 0);
  }
}
