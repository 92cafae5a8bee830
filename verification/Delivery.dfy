/**
 Messages and their acknowledgements from any node of a tree to any other: up to where the two paths meet, and down
 again along the learned routes. A message whose route a repeater does not know goes up if it comes from below, and
 otherwise straight to its destination, where it is heard only next door.
 */
module Delivery {
  import opened Words
  import opened TransportSpec
  import opened Trees
  import opened Network

  /** Nobody on the way counts its hops, and it hands out no id. */
  predicate Plain(m: Packet) {
    m.kind != Ping && m.kind != Pong && m.kind != IdResponse
  }

  /** The nearest node at or above s that is at or above d. */
  ghost function Junction(t: Tree, s: byte, d: byte): (j: byte)
    requires Wf(t) && s in t.nodes && d in t.nodes
    ensures j in t.nodes && Below(t, s, j) && Below(t, d, j)
    decreases t.depth(s)
  {
    if Below(t, d, s) then s
    else
      AllBelowGateway(t, d);
      Junction(t, t.parent(s), d)
  }

  /** How many edges the path between s and d has. */
  ghost function Apart(t: Tree, s: byte, d: byte): nat
    requires Wf(t) && s in t.nodes && d in t.nodes
  {
    var j := Junction(t, s, d);
    BelowIsDeeper(t, s, j);
    BelowIsDeeper(t, d, j);
    t.depth(s) + t.depth(d) - 2 * t.depth(j)
  }

  lemma {:induction false} JunctionIsDeepest(t: Tree, s: byte, d: byte, x: byte)
    requires Wf(t) && s in t.nodes && d in t.nodes && Below(t, s, x) && Below(t, d, x)
    ensures t.depth(x) <= t.depth(Junction(t, s, d))
    decreases t.depth(s)
  {
    BelowIsDeeper(t, s, x);
    if !Below(t, d, s) { JunctionIsDeepest(t, t.parent(s), d, x); }
  }

  lemma JunctionIsSymmetric(t: Tree, s: byte, d: byte)
    requires Wf(t) && s in t.nodes && d in t.nodes
    ensures t.depth(Junction(t, s, d)) == t.depth(Junction(t, d, s)) && Apart(t, s, d) == Apart(t, d, s)
  {
    JunctionIsDeepest(t, s, d, Junction(t, d, s));
    JunctionIsDeepest(t, d, s, Junction(t, s, d));
  }

  /** The neighbour of d that lies on the path from s. */
  ghost function Before(t: Tree, s: byte, d: byte): byte
    requires Wf(t) && s in t.nodes && d in t.nodes && s != d
  {
    if Below(t, s, d) then Toward(t, s, d) else t.parent(d)
  }

  /** m on its way from l to x. */
  function Carrying(m: Packet, l: byte, x: byte): Frame {
    Frame(x, m.(last := l))
  }

  /** Nobody forgets a route, and who is ready stays so. */
  ghost predicate Keeps(net: Net, after: Net) {
    && after.Keys == net.Keys
    && (forall x :: x in net && net[x].sm.uplinkOk ==> after[x].sm.uplinkOk)
    && (forall x, y: byte :: x in net && net[x].routes[y] != AUTO ==> after[x].routes[y] != AUTO)
  }

  lemma KeepsPath(t: Tree, net: Net, after: Net, s: byte, from: nat)
    requires Inv(t, net) && Inv(t, after) && s in t.nodes && Keeps(net, after)
    ensures PathKnown(t, net, s, from) ==> PathKnown(t, after, s, from)
    ensures PathReady(t, net, s) ==> PathReady(t, after, s)
  {
    hide GoodNode, AllAsked, Below;
  }

  // ----- One hop -----

  /** Where a message whose destination hangs below x goes next. */
  lemma HopDown(t: Tree, x: byte, routes: Table, d: byte, last: byte)
    requires Wf(t) && x in t.nodes && d in t.nodes && Below(t, d, x) && d != x && d != BROADCAST_ADDRESS
    requires RightRoutes(t, x, routes) && routes[d] != AUTO
    ensures NextHop(t.setup(x), t.parent(x), routes, d, last) == Toward(t, d, x)
  {
    BelowIsDeeper(t, d, x);
    assert RightRoute(t, x, d, routes[d]);
    assert t.setup(t.parent(Toward(t, d, x))).repeater;
  }

  /** Elsewhere it goes up, unless a repeater takes it for a message from above. */
  lemma HopUp(t: Tree, x: byte, routes: Table, d: byte, last: byte)
    requires Wf(t) && x in t.nodes && d in t.nodes && !Below(t, d, x) && RightRoutes(t, x, routes)
    ensures x != GATEWAY_ADDRESS
    ensures NextHop(t.setup(x), t.parent(x), routes, d, last) ==
              if d != GATEWAY_ADDRESS && t.setup(x).repeater && last == t.parent(x) then d else t.parent(x)
  {
    AllBelowGateway(t, d);
    assert RightRoute(t, x, d, routes[d]);
  }

  /** A node on the way passes the message on. */
  lemma Relays(t: Tree, net: Net, m: Packet, l: byte, x: byte) returns (after: Net)
    requires Inv(t, net) && Plain(m) && m.destination != BROADCAST_ADDRESS
    requires l in net && x in net && (Up(t, Carrying(m, l, x)) || Down(t, Carrying(m, l, x)))
    requires Carrying(m, l, x) in net[l].air && net[x].sm.uplinkOk
    ensures Enabled(t, net, Deliver(Carrying(m, l, x), 0, 0))
    ensures after == Next(t, net, Deliver(Carrying(m, l, x), 0, 0))
    ensures Inv(t, after) && Keeps(net, after) && after.Keys == net.Keys
    ensures forall y :: y in net && y != x ==> after[y] == net[y]
    ensures l != GATEWAY_ADDRESS && x == t.parent(l) && t.setup(x).repeater && m.sender != x ==>
              after[x].routes[m.sender] == l
    ensures m.destination != x && t.setup(x).repeater ==>
              Carrying(m, x, NextHop(t.setup(x), t.parent(x), after[x].routes, m.destination, l)) in after[x].air
    ensures m.destination == x && m.wantsAck ==>
              Frame(NextHop(t.setup(x), t.parent(x), after[x].routes, m.sender, l), Reply(m)) in after[x].air
  {
    hide *;
    var f := Carrying(m, l, x);
    IsHeard(t, net, m, l, x);
    after := Next(t, net, Deliver(f, 0, 0));
    DeliverIs(t, net, f);
    NextKeepsInv(t, net, Deliver(f, 0, 0));
    OneKeeps(net, x, after[x]);
  }

  lemma IsHeard(t: Tree, net: Net, m: Packet, l: byte, x: byte)
    requires Inv(t, net) && Plain(m) && m.destination != BROADCAST_ADDRESS
    requires l in net && x in net && (Up(t, Carrying(m, l, x)) || Down(t, Carrying(m, l, x)))
    requires Carrying(m, l, x) in net[l].air && net[x].sm.uplinkOk
    ensures var f := Carrying(m, l, x);
            var p := Process(t.setup(x), net[x], f.packet, 0, 0);
            && f.to == x && f.packet == m.(last := l) && Enabled(t, net, Deliver(f, 0, 0))
            && (forall y: byte :: net[x].routes[y] != AUTO ==> p.routes[y] != AUTO)
            && (l != GATEWAY_ADDRESS && x == t.parent(l) && t.setup(x).repeater && m.sender != x ==>
                  p.routes[m.sender] == l)
            && (m.destination != x && t.setup(x).repeater ==>
                  Carrying(m, x, NextHop(t.setup(x), t.parent(x), p.routes, m.destination, l)) in p.air)
            && (m.destination == x && m.wantsAck ==>
                  Frame(NextHop(t.setup(x), t.parent(x), p.routes, m.sender, l), Reply(m)) in p.air)
  {
    hide Process, NextHop, Inv, Learned, Reply, Below, Wf;
    InPlaceIs(t, net, x);
    InPlaceIs(t, net, l);
    Reacts(t.setup(x), net[x], m.(last := l));
    Learns(t, l, x, net[x].config, net[x].routes, m);
    RepliesAlike(m, l);
  }

  lemma RepliesAlike(m: Packet, l: byte)
    ensures Reply(m.(last := l)) == Reply(m)
  {
  }

  lemma DeliverIs(t: Tree, net: Net, f: Frame)
    requires Enabled(t, net, Deliver(f, 0, 0))
    ensures f.to in net
    ensures Next(t, net, Deliver(f, 0, 0)) == net[f.to := Process(t.setup(f.to), net[f.to], f.packet, 0, 0)]
  {
    hide Process;
  }

  lemma OneKeeps(net: Net, x: byte, node: Node)
    requires x in net && (net[x].sm.uplinkOk ==> node.sm.uplinkOk)
    requires forall y: byte :: net[x].routes[y] != AUTO ==> node.routes[y] != AUTO
    ensures Keeps(net, net[x := node])
  {
  }

  lemma Reacts(u: Setup, n: Node, m: Packet)
    requires !n.sm.finding && n.sm.uplinkOk && Plain(m) && m.destination != BROADCAST_ADDRESS
    ensures var p := Process(u, n, m, 0, 0);
            var x := n.config.nodeId;
            && p.routes == Learned(u, n.config, n.routes, m)
            && (m.destination != x && u.repeater ==>
                  Frame(NextHop(u, n.config.parent, p.routes, m.destination, m.last), m.(last := x)) in p.air)
            && (m.destination == x && m.wantsAck ==>
                  Frame(NextHop(u, n.config.parent, p.routes, m.sender, m.last), Reply(m)) in p.air)
  {
    hide Process, Answers, NextHop, Learned;
    UnicastReaction(u, n, m, 0, 0);
    PassedOn(u, n.config, Learned(u, n.config, n.routes, m), n.spare, m);
  }

  lemma Learns(t: Tree, l: byte, x: byte, config: NodeConfig, routes: Table, m: Packet)
    requires Wf(t) && l in t.nodes && x in t.nodes && config.nodeId == x && config.parent == t.parent(x)
    ensures var learned := Learned(t.setup(x), config, routes, m.(last := l));
            && (forall y: byte :: routes[y] != AUTO ==> learned[y] != AUTO)
            && (l != GATEWAY_ADDRESS && x == t.parent(l) && t.setup(x).repeater && m.sender != x ==>
                  learned[m.sender] == l)
  {
  }

  /** The acknowledgement of m. */
  function Reply(m: Packet): Packet {
    m.(last := m.destination, sender := m.destination, destination := m.sender, wantsAck := false, isAck := true)
  }

  lemma InPlaceIs(t: Tree, net: Net, x: byte)
    requires Inv(t, net) && (x in net || x in t.nodes)
    ensures x in net && net[x].config.nodeId == x && net[x].config.parent == t.parent(x)
    ensures x != AUTO && x != BROADCAST_ADDRESS
    ensures !net[x].sm.finding && Wf(t) && x in t.nodes
  {
    hide RightRoutes, GoodAir, AllAsked;
    assert GoodNode(t, x, net[x]);
  }

  lemma PassedOn(u: Setup, config: NodeConfig, routes: Table, spare: byte, m: Packet)
    requires Plain(m)
    ensures var x := config.nodeId;
            var sent := Answers(u, true, config, routes, spare, m);
            && (m.destination != x && u.repeater ==>
                  Frame(NextHop(u, config.parent, routes, m.destination, m.last), m.(last := x)) in sent)
            && (m.destination == x && m.wantsAck ==>
                  Frame(NextHop(u, config.parent, routes, m.sender, m.last), Reply(m)) in sent)
  {
    hide NextHop;
    var sent := Answers(u, true, config, routes, spare, m);
    if m.destination != config.nodeId {
      if u.repeater { assert sent[0] in sent; }
    } else if m.wantsAck {
      assert sent[0] in sent;
    }
  }

  lemma ParentsRepeat(t: Tree, x: byte)
    requires Wf(t) && x in t.nodes && x != GATEWAY_ADDRESS
    ensures t.parent(x) in t.nodes && t.setup(t.parent(x)).repeater && t.depth(x) == t.depth(t.parent(x)) + 1
  {
  }

  // ----- The whole way -----

  /** By the last of these deliveries, m is heard where it goes to, from the neighbour on its way; and its reply is
      sent, if one is wanted. */
  ghost predicate Arrives(t: Tree, net: Net, m: Packet, actions: seq<Action>)
    requires Inv(t, net) && m.sender in t.nodes && m.destination in t.nodes && m.sender != m.destination
  {
    var d := m.destination;
    var l := Before(t, m.sender, d);
    && IsRun(t, net, actions) && actions != []
    && actions[|actions| - 1] == Deliver(Carrying(m, l, d), 0, 0)
    && (forall a :: a in actions ==> a.Deliver? && a.f.packet == m.(last := a.f.packet.last))
    && Inv(t, RunOf(t, net, actions)) && Keeps(net, RunOf(t, net, actions))
    && (m.wantsAck ==>
          Frame(NextHop(t.setup(d), t.parent(d), RunOf(t, net, actions)[d].routes, m.sender, l), Reply(m))
            in RunOf(t, net, actions)[d].air)
  }

  lemma ArrivesNow(t: Tree, net: Net, m: Packet, after: Net)
    requires Inv(t, net) && m.sender in t.nodes && m.destination in t.nodes && m.sender != m.destination
    requires var d := m.destination;
             var l := Before(t, m.sender, d);
             && Enabled(t, net, Deliver(Carrying(m, l, d), 0, 0))
             && after == Next(t, net, Deliver(Carrying(m, l, d), 0, 0)) && Inv(t, after) && Keeps(net, after)
             && d in after
             && (m.wantsAck ==>
                   Frame(NextHop(t.setup(d), t.parent(d), after[d].routes, m.sender, l), Reply(m)) in after[d].air)
    ensures var actions := [Deliver(Carrying(m, Before(t, m.sender, m.destination), m.destination), 0, 0)];
            Arrives(t, net, m, actions) && RunOf(t, net, actions) == after
  {
    hide Enabled, Next, Before, NextHop, Reply, Keeps, GoodNode, AllAsked, Wf;
    var a := Deliver(Carrying(m, Before(t, m.sender, m.destination), m.destination), 0, 0);
    RunOfNone(t, after);
    RunPrepend(t, net, a, []);
    assert [a] + [] == [a];
  }

  lemma ArrivesLater(t: Tree, net: Net, m: Packet, l: byte, x: byte, after: Net, rest: seq<Action>)
    requires Inv(t, net) && m.sender in t.nodes && m.destination in t.nodes && m.sender != m.destination
    requires Enabled(t, net, Deliver(Carrying(m, l, x), 0, 0))
    requires after == Next(t, net, Deliver(Carrying(m, l, x), 0, 0)) && Inv(t, after) && Keeps(net, after)
    requires Arrives(t, after, m, rest)
    ensures var actions := [Deliver(Carrying(m, l, x), 0, 0)] + rest;
            Arrives(t, net, m, actions) && RunOf(t, net, actions) == RunOf(t, after, rest)
  {
    hide Inv, Enabled, Next, Before, NextHop, Reply;
    var a := Deliver(Carrying(m, l, x), 0, 0);
    RunPrepend(t, net, a, rest);
  }

  lemma ArrivesMeans(t: Tree, net: Net, m: Packet, actions: seq<Action>)
    requires Inv(t, net) && m.sender in t.nodes && m.destination in t.nodes && m.sender != m.destination
    requires Arrives(t, net, m, actions)
    ensures IsRun(t, net, actions) && Inv(t, RunOf(t, net, actions)) && Keeps(net, RunOf(t, net, actions))
  {
    hide Keeps, IsRun, RunOf, GoodNode, AllAsked, Wf;
  }

  /** From above its destination, the message comes down along the learned routes. */
  lemma {:induction false} Descends(t: Tree, net: Net, m: Packet, x: byte) returns (actions: seq<Action>)
    requires Inv(t, net) && Plain(m) && m.sender in t.nodes && m.destination in t.nodes
    requires m.sender != m.destination && !Below(t, m.sender, m.destination)
    requires x in t.nodes && x != GATEWAY_ADDRESS && Below(t, m.destination, x)
    requires Carrying(m, t.parent(x), x) in net[t.parent(x)].air
    requires PathKnown(t, net, m.destination, t.depth(x)) && PathReady(t, net, m.destination)
    requires net[m.destination].sm.uplinkOk
    ensures Arrives(t, net, m, actions) && |actions| == t.depth(m.destination) - t.depth(x) + 1
    decreases t.depth(m.destination) - t.depth(x)
  {
    hide *;
    var d := m.destination;
    OnTheWayDown(t, net, m, x);
    var after := Relays(t, net, m, t.parent(x), x);
    if x == d {
      BeforeFromAbove(t, m.sender, d);
      ArrivesNow(t, net, m, after);
      actions := [Deliver(Carrying(m, t.parent(x), x), 0, 0)];
    } else {
      KeepsPath(t, net, after, d, t.depth(x));
      var z := GoesDown(t, after, m, x, t.parent(x));
      var rest := Descends(t, after, m, z);
      actions := [Deliver(Carrying(m, t.parent(x), x), 0, 0)] + rest;
      ArrivesLater(t, net, m, t.parent(x), x, after, rest);
    }
  }

  lemma BeforeFromAbove(t: Tree, s: byte, d: byte)
    requires Wf(t) && s in t.nodes && d in t.nodes && s != d && !Below(t, s, d)
    ensures Before(t, s, d) == t.parent(d)
  {
  }

  lemma OnTheWayDown(t: Tree, net: Net, m: Packet, x: byte)
    requires Inv(t, net) && m.destination in t.nodes && net[m.destination].sm.uplinkOk
    requires x in t.nodes && x != GATEWAY_ADDRESS && Below(t, m.destination, x)
    requires PathReady(t, net, m.destination)
    ensures Wf(t) && net.Keys == t.nodes && t.parent(x) in net && x in net && net[x].sm.uplinkOk
    ensures Down(t, Carrying(m, t.parent(x), x)) && t.depth(x) <= t.depth(m.destination)
    ensures m.destination != BROADCAST_ADDRESS && (x == m.destination <==> t.depth(x) == t.depth(m.destination))
  {
    hide GoodNode, AllAsked, Below;
    BelowIsDeeper(t, m.destination, x);
  }

  /** A node above the destination that knows the route has sent the message on to its child on the way. */
  lemma GoesDown(t: Tree, net: Net, m: Packet, x: byte, last: byte) returns (z: byte)
    requires Inv(t, net) && m.destination in t.nodes && x in t.nodes && Below(t, m.destination, x) && m.destination != x
    requires t.setup(x).repeater ==>
               Carrying(m, x, NextHop(t.setup(x), t.parent(x), net[x].routes, m.destination, last)) in net[x].air
    requires PathKnown(t, net, m.destination, t.depth(x))
    ensures z in t.nodes && z != GATEWAY_ADDRESS && t.parent(z) == x && Below(t, m.destination, z)
    ensures t.depth(z) == t.depth(x) + 1 && Carrying(m, x, z) in net[x].air
    ensures PathKnown(t, net, m.destination, t.depth(z))
  {
    hide Good, Consistent, AllAsked, NextHop, RightRoute;
    assert GoodNode(t, x, net[x]);
    z := Toward(t, m.destination, x);
    ParentsRepeat(t, z);
    HopDown(t, x, net[x].routes, m.destination, last);
  }

  /** From elsewhere it goes up first, to where d hangs below; and all from where it comes from to there learn the way
      back. */
  lemma {:induction false} Climbs(t: Tree, net: Net, m: Packet, l: byte) returns (actions: seq<Action>)
    requires Inv(t, net) && Plain(m) && m.sender in t.nodes && m.destination in t.nodes && m.sender != m.destination
    requires l in t.nodes && l != GATEWAY_ADDRESS && Below(t, m.sender, l) && !Below(t, m.destination, l)
    requires Carrying(m, l, t.parent(l)) in net[l].air && PathReady(t, net, m.sender)
    requires Junction(t, l, m.destination) == Junction(t, m.sender, m.destination)
    requires PathKnown(t, net, m.destination, t.depth(Junction(t, l, m.destination)))
    requires PathReady(t, net, m.destination) && net[m.destination].sm.uplinkOk
    requires PathKnown(t, net, m.sender, t.depth(l))
    ensures Arrives(t, net, m, actions) && |actions| == Apart(t, l, m.destination)
    ensures PathKnown(t, RunOf(t, net, actions), m.sender, t.depth(Junction(t, m.sender, m.destination)))
    decreases t.depth(l)
  {
    hide *;
    var x, d := t.parent(l), m.destination;
    OnTheWayUp(t, net, m, l);
    var after := Relays(t, net, m, l, x);
    PathGrows(t, net, after, m.sender, l);
    KeepsPath(t, net, after, m.sender, 0);
    KeepsPath(t, net, after, d, t.depth(Junction(t, l, d)));
    UpOne(t, l, d);
    if x == d {
      BeforeFromBelow(t, m.sender, l);
      ArrivesNow(t, net, m, after);
      actions := [Deliver(Carrying(m, l, x), 0, 0)];
    } else {
      var rest;
      if Below(t, d, x) {
        var z := GoesDown(t, after, m, x, l);
        NotBelow(t, m.sender, d, x, l);
        rest := Descends(t, after, m, z);
        ArrivesMeans(t, after, m, rest);
        KeepsPath(t, after, RunOf(t, after, rest), m.sender, t.depth(x));
      } else {
        GoesUp(t, after, m, x, l);
        rest := Climbs(t, after, m, x);
      }
      actions := [Deliver(Carrying(m, l, x), 0, 0)] + rest;
      ArrivesLater(t, net, m, l, x, after, rest);
    }
  }

  lemma OnTheWayUp(t: Tree, net: Net, m: Packet, l: byte)
    requires Inv(t, net) && m.sender in t.nodes && m.destination in t.nodes
    requires l in t.nodes && l != GATEWAY_ADDRESS && Below(t, m.sender, l) && PathReady(t, net, m.sender)
    ensures Wf(t) && net.Keys == t.nodes && m.destination != BROADCAST_ADDRESS
    ensures t.parent(l) in net && net[t.parent(l)].sm.uplinkOk && t.setup(t.parent(l)).repeater
    ensures t.parent(l) != m.sender && Below(t, m.sender, t.parent(l)) && l != AUTO
    ensures Up(t, Carrying(m, l, t.parent(l))) && t.depth(l) == t.depth(t.parent(l)) + 1
  {
    hide GoodNode, AllAsked, Below;
    BelowParent(t, m.sender, l);
  }

  /** One step up, where d does not hang below, leaves the junction where it is. */
  lemma UpOne(t: Tree, l: byte, d: byte)
    requires Wf(t) && l in t.nodes && d in t.nodes && l != GATEWAY_ADDRESS && !Below(t, d, l)
    ensures Junction(t, l, d) == Junction(t, t.parent(l), d)
    ensures t.parent(l) == d ==> Below(t, d, t.parent(l))
    ensures Below(t, d, t.parent(l)) ==> Junction(t, l, d) == t.parent(l) && t.depth(t.parent(l)) <= t.depth(d)
    ensures Below(t, d, t.parent(l)) ==> Apart(t, l, d) == 1 + t.depth(d) - t.depth(t.parent(l))
    ensures Apart(t, l, d) == 1 + Apart(t, t.parent(l), d)
  {
    if Below(t, d, t.parent(l)) { BelowIsDeeper(t, d, t.parent(l)); }
  }

  lemma BeforeFromBelow(t: Tree, s: byte, l: byte)
    requires Wf(t) && s in t.nodes && l != GATEWAY_ADDRESS && Below(t, s, l)
    ensures s != t.parent(l) && t.parent(l) in t.nodes && Before(t, s, t.parent(l)) == l
  {
    TowardIsUnique(t, s, l);
    BelowIsDeeper(t, s, t.parent(l));
  }

  /** s comes to x over its child l, d does not hang below l; then s does not hang below d. */
  lemma NotBelow(t: Tree, s: byte, d: byte, x: byte, l: byte)
    requires Wf(t) && s in t.nodes && d in t.nodes && l in t.nodes && l != GATEWAY_ADDRESS && x == t.parent(l)
    requires Below(t, s, l) && !Below(t, d, l) && Below(t, d, x) && d != x
    ensures !Below(t, s, d)
  {
    if Below(t, s, d) {
      Chained(t, s, d, l);
      BelowIsDeeper(t, d, x);
      if l != d { BelowIsDeeper(t, x, d); }
    }
  }

  /** Of two nodes above s, one is above the other. */
  lemma {:induction false} Chained(t: Tree, s: byte, a: byte, b: byte)
    requires Wf(t) && s in t.nodes && a in t.nodes && b in t.nodes && Below(t, s, a) && Below(t, s, b)
    ensures Below(t, a, b) || Below(t, b, a)
    decreases t.depth(s)
  {
    if s != a && s != b { Chained(t, t.parent(s), a, b); }
  }

  lemma GoesUp(t: Tree, net: Net, m: Packet, x: byte, last: byte)
    requires Inv(t, net) && m.destination in t.nodes && x in t.nodes && !Below(t, m.destination, x)
    requires last in t.nodes && last != GATEWAY_ADDRESS && t.parent(last) == x
    requires Carrying(m, x, NextHop(t.setup(x), t.parent(x), net[x].routes, m.destination, last)) in net[x].air
    ensures x != GATEWAY_ADDRESS && Carrying(m, x, t.parent(x)) in net[x].air
  {
    hide Good, Consistent, AllAsked, NextHop, RightRoute;
    assert GoodNode(t, x, net[x]);
    HopUp(t, x, net[x].routes, m.destination, last);
  }

  // ----- From one node to another, and back -----

  /** Whether x takes a message for d to a neighbour, if it knows the way to all below it. */
  ghost predicate OverTree(t: Tree, x: byte, d: byte, last: byte)
    requires Wf(t) && x in t.nodes && d in t.nodes
  {
    || Below(t, d, x) || d == GATEWAY_ADDRESS || t.parent(x) == d
    || !t.setup(x).repeater || last != t.parent(x)
  }

  /** A message leaves x over an edge of the tree exactly if its destination hangs below x or is next door, x is no
      repeater, or the message has not come from above; otherwise it is sent straight to a node that is no
      neighbour. */
  lemma LeavesOverTreeIff(t: Tree, x: byte, routes: Table, m: Packet)
    requires Wf(t) && x in t.nodes && m.destination in t.nodes && m.destination != x && RightRoutes(t, x, routes)
    requires Below(t, m.destination, x) ==> routes[m.destination] != AUTO
    ensures var d := m.destination;
            var f := Carrying(m, x, NextHop(t.setup(x), t.parent(x), routes, d, m.last));
            && (Up(t, f) || Down(t, f) <==> OverTree(t, x, d, m.last))
            && (!OverTree(t, x, d, m.last) ==> f.to == d)
  {
    hide RightRoutes, NextHop;
    var d := m.destination;
    if Below(t, d, x) { HopDown(t, x, routes, d, m.last); } else { HopUp(t, x, routes, d, m.last); }
  }

  lemma Travels(t: Tree, net: Net, m: Packet, last: byte) returns (actions: seq<Action>)
    requires Inv(t, net) && Plain(m) && m.sender in t.nodes && m.destination in t.nodes && m.sender != m.destination
    requires var s, d := m.sender, m.destination;
             && OverTree(t, s, d, last) && net[d].sm.uplinkOk && PathReady(t, net, s) && PathReady(t, net, d)
             && Carrying(m, s, NextHop(t.setup(s), t.parent(s), net[s].routes, d, last)) in net[s].air
             && PathKnown(t, net, d, t.depth(Junction(t, s, d)))
    ensures Arrives(t, net, m, actions) && |actions| == Apart(t, m.sender, m.destination)
    ensures PathKnown(t, RunOf(t, net, actions), m.sender, t.depth(Junction(t, m.sender, m.destination)))
  {
    hide Inv, PathReady, Arrives, NextHop, OverTree, GoodNode, AllAsked;
    var s, d := m.sender, m.destination;
    InPlaceIs(t, net, s);
    KnownAbove(t, net, s);
    if Below(t, d, s) {
      BelowIsDeeper(t, d, s);
      var z := GoesDown(t, net, m, s, last);
      NotAbove(t, s, d);
      actions := Descends(t, net, m, z);
      ArrivesMeans(t, net, m, actions);
      KnownAbove(t, RunOf(t, net, actions), s);
    } else {
      StartsUp(t, net, m, last);
      actions := Climbs(t, net, m, s);
    }
  }

  lemma NotAbove(t: Tree, s: byte, d: byte)
    requires Wf(t) && s in t.nodes && d in t.nodes && s != d && Below(t, d, s)
    ensures !Below(t, s, d)
  {
    BelowIsDeeper(t, d, s);
    if Below(t, s, d) { BelowIsDeeper(t, s, d); }
  }

  lemma KnownAbove(t: Tree, net: Net, s: byte)
    requires Inv(t, net) && s in t.nodes
    ensures PathKnown(t, net, s, t.depth(s))
  {
    hide GoodNode, AllAsked, Below;
    forall x | x in t.nodes && x != s && Below(t, s, x) && t.depth(x) >= t.depth(s)
      ensures false
    {
      BelowIsDeeper(t, s, x);
    }
  }

  lemma StartsUp(t: Tree, net: Net, m: Packet, last: byte)
    requires Inv(t, net) && m.sender in t.nodes && m.destination in t.nodes && !Below(t, m.destination, m.sender)
    requires OverTree(t, m.sender, m.destination, last)
    requires var s := m.sender;
             Carrying(m, s, NextHop(t.setup(s), t.parent(s), net[s].routes, m.destination, last)) in net[s].air
    ensures m.sender != GATEWAY_ADDRESS && Carrying(m, m.sender, t.parent(m.sender)) in net[m.sender].air
  {
    hide Good, Consistent, AllAsked, NextHop, RightRoute;
    assert GoodNode(t, m.sender, net[m.sender]);
    HopUp(t, m.sender, net[m.sender].routes, m.destination, last);
  }

  lemma Sends(t: Tree, net: Net, m: Packet) returns (after: Net)
    requires Inv(t, net) && m.sender in t.nodes && m.destination in t.nodes && m.sender != m.destination && Plain(m)
    requires net[m.sender].sm.uplinkOk
    ensures Enabled(t, net, Local(m.sender, Send(m))) && after == Next(t, net, Local(m.sender, Send(m)))
    ensures Inv(t, after) && Keeps(net, after) && after[m.sender].routes == net[m.sender].routes
    ensures var s := m.sender;
            Carrying(m, s, NextHop(t.setup(s), t.parent(s), after[s].routes, m.destination, m.last)) in after[s].air
  {
    hide *;
    var s := m.sender;
    var a := Local(s, Send(m));
    InPlaceIs(t, net, s);
    InPlaceIs(t, net, m.destination);
    MaySendNow(t, net, m);
    after := Next(t, net, a);
    NextKeepsInv(t, net, a);
    OneKeeps(net, s, after[s]);
  }

  lemma MaySendNow(t: Tree, net: Net, m: Packet)
    requires m.sender in net && m.sender != m.destination && Plain(m) && m.destination != BROADCAST_ADDRESS
    requires var n := net[m.sender];
             n.sm.uplinkOk && !n.sm.finding && n.config.nodeId == m.sender && n.config.parent == t.parent(m.sender)
    ensures var s := m.sender;
            var p := Route(t.setup(s), net[s], m);
            && Enabled(t, net, Local(s, Send(m))) && Next(t, net, Local(s, Send(m))) == net[s := p]
            && p.routes == net[s].routes && p.sm.uplinkOk
            && Carrying(m, s, NextHop(t.setup(s), t.parent(s), p.routes, m.destination, m.last)) in p.air
  {
    hide Route, NextHop;
    RouteKeeps(t.setup(m.sender), net[m.sender], m);
  }

  lemma StaysReady(net: Net, after: Net, x: byte)
    requires Keeps(net, after) && x in net && net[x].sm.uplinkOk
    ensures x in after && after[x].sm.uplinkOk
  {
  }

  /** From any state a run can reach: a message of a ready node to any other, on whose way all are ready, arrives after
      as many hops as they are apart, if those from where the ways meet down know its destination, and it leaves its
      sender over the tree. */
  lemma MessageArrives(t: Tree, net: Net, m: Packet) returns (after: Net, actions: seq<Action>)
    requires Inv(t, net) && m.sender in t.nodes && m.destination in t.nodes && m.sender != m.destination && Plain(m)
    requires var s, d := m.sender, m.destination;
             && net[s].sm.uplinkOk && net[d].sm.uplinkOk && PathReady(t, net, s) && PathReady(t, net, d)
             && PathKnown(t, net, d, t.depth(Junction(t, s, d))) && OverTree(t, s, d, m.last)
    ensures Enabled(t, net, Local(m.sender, Send(m))) && after == Next(t, net, Local(m.sender, Send(m)))
    ensures Inv(t, after) && Arrives(t, after, m, actions) && |actions| == Apart(t, m.sender, m.destination)
    ensures IsRun(t, net, [Local(m.sender, Send(m))] + actions)
    ensures PathKnown(t, RunOf(t, after, actions), m.sender, t.depth(Junction(t, m.sender, m.destination)))
    ensures Keeps(net, after)
  {
    hide *;
    var s, d := m.sender, m.destination;
    InPlaceIs(t, net, s);
    InPlaceIs(t, net, d);
    after := Sends(t, net, m);
    KeepsPath(t, net, after, s, 0);
    KeepsPath(t, net, after, d, t.depth(Junction(t, s, d)));
    StaysReady(net, after, d);
    actions := Travels(t, after, m, m.last);
    ArrivesMeans(t, after, m, actions);
    RunPrepend(t, net, Local(s, Send(m)), actions);
  }

  /** d acknowledges over the tree what it hears from s exactly if s hangs below it, is the gateway or its parent, or
      if d is no repeater: a repeater takes its own reply to a message from above for one from above, and sends it
      straight to s. */
  ghost predicate RepliesOverTree(t: Tree, s: byte, d: byte)
    requires Wf(t) && s in t.nodes && d in t.nodes
  {
    Below(t, s, d) || s == GATEWAY_ADDRESS || s == t.parent(d) || !t.setup(d).repeater
  }

  lemma RepliesOverTreeIs(t: Tree, s: byte, d: byte)
    requires Wf(t) && s in t.nodes && d in t.nodes && s != d
    ensures RepliesOverTree(t, s, d) <==> OverTree(t, d, s, Before(t, s, d))
  {
  }

  /** The reply has been sent by the time the message has arrived. */
  lemma ReplyIsSent(t: Tree, net: Net, m: Packet, actions: seq<Action>)
    requires Inv(t, net) && m.sender in t.nodes && m.destination in t.nodes && m.sender != m.destination
    requires Arrives(t, net, m, actions) && m.wantsAck
    ensures var end := RunOf(t, net, actions);
            var d := m.destination;
            && d in end
            && Carrying(Reply(m), d,
                        NextHop(t.setup(d), t.parent(d), end[d].routes, m.sender, Before(t, m.sender, d))) in end[d].air
  {
    hide IsRun, RunOf, GoodNode, AllAsked, Wf, NextHop, Before, Keeps;
  }

  lemma ReplyIsPlain(m: Packet)
    requires Plain(m)
    ensures Plain(Reply(m)) && Reply(m).sender == m.destination && Reply(m).destination == m.sender
    ensures !Reply(m).wantsAck && Reply(m).isAck && Reply(m).value == m.value && Reply(m).kind == m.kind
  {
  }

  /** And its acknowledgement comes back over as many hops, whether or not anybody knew the way to its sender before;
      or else, exactly if d does not reply over the tree, it is sent to s who is no neighbour. */
  lemma AckComesBack(t: Tree, net: Net, m: Packet)
    returns (after: Net, there: seq<Action>, back: seq<Action>)
    requires Inv(t, net) && m.sender in t.nodes && m.destination in t.nodes && m.sender != m.destination && Plain(m)
    requires var s, d := m.sender, m.destination;
             && net[s].sm.uplinkOk && net[d].sm.uplinkOk && PathReady(t, net, s) && PathReady(t, net, d)
             && PathKnown(t, net, d, t.depth(Junction(t, s, d))) && OverTree(t, s, d, m.last) && m.wantsAck
    ensures Enabled(t, net, Local(m.sender, Send(m))) && after == Next(t, net, Local(m.sender, Send(m)))
    ensures Inv(t, after) && Arrives(t, after, m, there) && |there| == Apart(t, m.sender, m.destination)
    ensures var s, d, end := m.sender, m.destination, RunOf(t, after, there);
            if RepliesOverTree(t, s, d) then Inv(t, end) && Arrives(t, end, Reply(m), back) && |back| == Apart(t, s, d)
            else
              && d in end && Carrying(Reply(m), d, s) in end[d].air
              && !Up(t, Carrying(Reply(m), d, s)) && !Down(t, Carrying(Reply(m), d, s))
  {
    hide *;
    var s, d := m.sender, m.destination;
    InPlaceIs(t, net, s);
    InPlaceIs(t, net, d);
    after, there := MessageArrives(t, net, m);
    KeepsPath(t, net, after, s, 0);
    KeepsPath(t, net, after, d, 0);
    ArrivesMeans(t, after, m, there);
    var end := RunOf(t, after, there);
    KeepsPath(t, after, end, s, 0);
    KeepsPath(t, after, end, d, 0);
    StaysReady(net, after, s);
    StaysReady(after, end, s);
    ReplyIsSent(t, after, m, there);
    ReplyIsPlain(m);
    RepliesOverTreeIs(t, s, d);
    JunctionIsSymmetric(t, s, d);
    back := [];
    if RepliesOverTree(t, s, d) {
      back := Travels(t, end, Reply(m), Before(t, s, d));
    } else {
      ReplyAstray(t, end, m);
    }
  }

  lemma ReplyAstray(t: Tree, net: Net, m: Packet)
    requires Inv(t, net) && m.sender in t.nodes && m.destination in t.nodes && m.sender != m.destination
    requires !RepliesOverTree(t, m.sender, m.destination)
    requires var d := m.destination;
             Carrying(Reply(m), d,
                      NextHop(t.setup(d), t.parent(d), net[d].routes, m.sender, Before(t, m.sender, d))) in net[d].air
    ensures var s, d := m.sender, m.destination;
            && d in net && Carrying(Reply(m), d, s) in net[d].air
            && !Up(t, Carrying(Reply(m), d, s)) && !Down(t, Carrying(Reply(m), d, s))
  {
    hide Good, Consistent, AllAsked, NextHop, RightRoute;
    var s, d := m.sender, m.destination;
    assert GoodNode(t, d, net[d]);
    HopUp(t, d, net[d].routes, s, Before(t, s, d));
  }
}
