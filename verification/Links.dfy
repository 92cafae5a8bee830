/**
 How a ready node keeps up its links: how often it checks its uplink, what it answers to those that look for a parent
 or discover the network, and what its routing table holds.
 */
module Links {
  import opened Words
  import opened TransportSpec

  // ----- Checking the uplink -----

  /** A check pings the gateway over the parent. Its answer is the new distance, and for ten seconds it is taken for the
      answer to every other check; after them the gateway is pinged again. */
  lemma CheckHolds(u: Setup, n: Node, force: bool, first: nat, hops: byte, now: nat, reply: byte)
    requires !n.sm.pingActive && !n.sm.finding && n.config.nodeId != GATEWAY_ADDRESS && hops != INVALID_HOPS
    requires force || U32(first - n.sm.lastCheck) >= 10_000
    ensures var p := Checked(u, n, force, first, hops);
            var q := Checked(u, p, false, now, reply);
            && p.config == n.config.(distance := hops) && p.sm.lastCheck == first && !p.sm.pingActive
            && p.air == n.air + [UplinkPingOf(n.config)]
            && (U32(now - first) < 10_000 ==> q == p && UplinkFine(p, false, now, reply))
            && (U32(now - first) >= 10_000 ==> q.air == p.air + [UplinkPingOf(n.config)])
            && (U32(now - first) >= 10_000 ==> (UplinkFine(p, false, now, reply) <==> reply != INVALID_HOPS))
  {
    hide Checked;
    CheckSends(u, n, force, first, hops);
    var p := Checked(u, n, force, first, hops);
    if CheckedLately(p, false, now) { NotChecked(u, p, now, reply); } else { CheckSends(u, p, false, now, reply); }
  }

  lemma CheckSends(u: Setup, n: Node, force: bool, now: nat, reply: byte)
    requires !n.sm.pingActive && !n.sm.finding && n.config.nodeId != GATEWAY_ADDRESS && !CheckedLately(n, force, now)
    ensures var p := Checked(u, n, force, now, reply);
            && p.air == n.air + [UplinkPingOf(n.config)] && p.routes == n.routes && p.spare == n.config.nodeId
            && p.sm == n.sm.(failedTx := p.sm.failedTx, pong := reply,
                             lastCheck := if reply != INVALID_HOPS then now else n.sm.lastCheck)
            && p.config == if reply != INVALID_HOPS then n.config.(distance := reply) else n.config
  {
    hide Post;
    var asking := n.(sm := n.sm.(pong := INVALID_HOPS, pingActive := true));
    PostSends(u, asking, GATEWAY_ADDRESS, Ping, 1);
    PostKeeps(u, asking, GATEWAY_ADDRESS, Ping, 1);
  }

  /** A ping of another node goes out to it with one hop, and the hops of its answer are the result; a node is no hops
      away from itself. Afterwards no ping is open. */
  lemma PingGoesOut(u: Setup, n: Node, target: byte, reply: byte)
    requires !n.sm.pingActive && !n.sm.finding
    ensures var p := Pinged(u, n, target, reply);
            var id := n.config.nodeId;
            && p.config == n.config && p.routes == n.routes
            && !p.sm.pingActive && p.sm.pong == PingResult(n, target, reply)
            && (target == id ==> p.sm.pong == 0 && p.air == n.air)
            && (target != id ==>
                  && p.sm.pong == reply
                  && p.air == n.air + [Frame(NextHop(u, n.config.parent, n.routes, target, n.spare),
                                             Packet(id, id, target, Ping, false, false, 1))])
  {
    hide Post;
    var asking := n.(sm := n.sm.(pong := INVALID_HOPS, pingActive := true));
    PostSends(u, asking, target, Ping, 1);
    PostKeeps(u, asking, target, Ping, 1);
  }

  /** The gateway finds itself without a ping. */
  lemma GatewayIsThere(u: Setup, n: Node, force: bool, now: nat, reply: byte)
    requires !n.sm.pingActive && n.config == NodeConfig(GATEWAY_ADDRESS, GATEWAY_ADDRESS, 0)
    ensures var p := Checked(u, n, force, now, reply);
            && UplinkFine(n, force, now, reply) && p.air == n.air && p.config == n.config && p.routes == n.routes
            && p.spare == n.spare && p.sm.failedTx == n.sm.failedTx && p.sm.uplinkOk == n.sm.uplinkOk
            && p.sm.finding == n.sm.finding
  {
    hide Post;
  }

  // ----- Answering -----

  /** A ready repeater that is not asked by its own parent answers a request for a parent, with its hops to the gateway,
      if its uplink works; it checks that first, unless it has done so within ten seconds. */
  lemma ParentRequestIsAnswered(u: Setup, n: Node, m: Packet, now: nat, reply: byte)
    requires m.destination == BROADCAST_ADDRESS != n.config.nodeId && m.kind == FindParentRequest
    requires u.repeater && n.sm.uplinkOk && !n.sm.finding && !n.sm.pingActive && m.sender != n.config.parent
    requires n.config.nodeId == GATEWAY_ADDRESS ==> n.config == NodeConfig(GATEWAY_ADDRESS, GATEWAY_ADDRESS, 0)
    ensures var p := Process(u, n, m, now, reply);
            var id := n.config.nodeId;
            var checks := U32(now - n.sm.lastCheck) >= 10_000 && id != GATEWAY_ADDRESS;
            var hops := if checks then reply else n.config.distance;
            var asked := if checks then [UplinkPingOf(n.config)] else [];
            var last := if checks then id else n.spare;
            if checks && reply == INVALID_HOPS then p.air == n.air + asked && p.sm.lastCheck == n.sm.lastCheck
            else
              && p.sm.lastCheck == now
              && p.air == n.air + asked +
                   [Frame(NextHop(u, n.config.parent, Learned(u, n.config, n.routes, m), m.sender, last),
                          Packet(id, id, m.sender, FindParentResponse, false, false, hops))]
  {
    hide Checked, Post, Learned, NextHop;
    var heard := n.(routes := Learned(u, n.config, n.routes, m), sm := n.sm.(received := true));
    if n.config.nodeId == GATEWAY_ADDRESS {
      GatewayIsThere(u, heard, false, now, reply);
    } else if !CheckedLately(heard, false, now) {
      CheckSends(u, heard, false, now, reply);
    } else {
      NotChecked(u, heard, now, reply);
    }
    var checked := Checked(u, heard, false, now, reply);
    var fine := checked.(sm := checked.sm.(lastCheck := now));
    PostSends(u, fine, m.sender, FindParentResponse, checked.config.distance);
    PostKeeps(u, fine, m.sender, FindParentResponse, checked.config.distance);
  }

  lemma NotChecked(u: Setup, n: Node, now: nat, reply: byte)
    requires CheckedLately(n, false, now)
    ensures Checked(u, n, false, now, reply) == n
  {
  }

  /** Two nodes: the request that starts a search, heard by a ready repeater next door with a working uplink, is
      answered to the one that searches, with an id or without; and hearing the answer, it has that repeater for its
      parent, one hop further out. */
  lemma NeighbourIsTaken(ua: Setup, a: Node, ub: Setup, b: Node, now: nat, reply: byte)
    requires Searching(ua, a) && !a.sm.preferredFound && a.config.distance == DISTANCE_INVALID
    requires a.config.nodeId != GATEWAY_ADDRESS && a.config.nodeId != b.config.nodeId
    requires b.config.nodeId != BROADCAST_ADDRESS
    requires ub.repeater && b.sm.uplinkOk && !b.sm.finding && !b.sm.pingActive && a.config.nodeId != b.config.parent
    requires b.config.nodeId == GATEWAY_ADDRESS ==> b.config == NodeConfig(GATEWAY_ADDRESS, GATEWAY_ADDRESS, 0)
    requires var checks := U32(now - b.sm.lastCheck) >= 10_000 && b.config.nodeId != GATEWAY_ADDRESS;
             (if checks then reply else b.config.distance) < 254
    ensures var id := a.config.nodeId;
            var request := Packet(id, id, BROADCAST_ADDRESS, FindParentRequest, false, false, 0);
            var p := Process(ub, b, request, now, reply);
            var checks := U32(now - b.sm.lastCheck) >= 10_000 && b.config.nodeId != GATEWAY_ADDRESS;
            var answer := p.air[|p.air| - 1];
            var q := Process(ua, a, answer.packet, now, reply);
            && |p.air| > |b.air| && answer.to == a.config.nodeId
            && q.config.parent == b.config.nodeId
            && q.config.distance == 1 + if checks then reply else b.config.distance
  {
    hide Process, Searching;
    var id := a.config.nodeId;
    var request := Packet(id, id, BROADCAST_ADDRESS, FindParentRequest, false, false, 0);
    ParentRequestIsAnswered(ub, b, request, now, reply);
    BackToAsker(ub, b, id, request);
    var p := Process(ub, b, request, now, reply);
    ReportOrNot(ua, a, p.air[|p.air| - 1].packet, now, reply);
  }

  lemma BackToAsker(u: Setup, n: Node, id: byte, m: Packet)
    requires u.repeater && id != n.config.nodeId && id != n.config.parent && id != GATEWAY_ADDRESS
    requires m.last == id && m.sender == id
    ensures forall last :: NextHop(u, n.config.parent, Learned(u, n.config, n.routes, m), id, last) == id
  {
  }

  /** A node that hears a discovery from its parent answers with that parent, and a ready repeater passes it on. */
  lemma DiscoveryIsAnswered(u: Setup, n: Node, m: Packet, now: nat, reply: byte)
    requires m.destination == BROADCAST_ADDRESS != n.config.nodeId && m.kind == DiscoverRequest
    requires !u.gateway && !n.sm.finding && m.last == n.config.parent && m.sender != n.config.nodeId
    ensures var p := Process(u, n, m, now, reply);
            var id := n.config.nodeId;
            && p.config == n.config && p.routes == n.routes
            && p.air == n.air +
                 [Frame(NextHop(u, n.config.parent, n.routes, m.sender, n.spare),
                        Packet(id, id, m.sender, DiscoverResponse, false, false, n.config.parent))] +
                 if u.repeater && n.sm.uplinkOk then [Frame(BROADCAST_ADDRESS, m.(last := id))] else []
  {
    hide Post;
    var heard := n.(sm := n.sm.(received := true));
    PostSends(u, heard, m.sender, DiscoverResponse, n.config.parent);
    PostKeeps(u, heard, m.sender, DiscoverResponse, n.config.parent);
  }

  // ----- What the routing table holds -----

  /** A message of y that did not come from the parent, heard by a repeater other than y. */
  predicate Teaches(u: Setup, id: byte, parent: byte, m: Packet, y: byte) {
    u.repeater && (u.gateway || m.last != parent) && m.sender == y && y != id
  }

  predicate NoneTeaches(u: Setup, id: byte, parent: byte, hs: seq<Hearing>, y: byte) {
    forall i :: 0 <= i < |hs| ==> !Teaches(u, id, parent, hs[i].m, y)
  }

  /** The k-th message is the last that teaches where y is. */
  predicate TeachesLast(u: Setup, id: byte, parent: byte, hs: seq<Hearing>, y: byte, k: nat) {
    k < |hs| && Teaches(u, id, parent, hs[k].m, y) && NoneTeaches(u, id, parent, hs[k + 1..], y)
  }

  lemma PostPlace(u: Setup, n: Node, destination: byte, kind: Kind, value: byte)
    ensures var p := Post(u, n, destination, kind, value);
            p.config == n.config && p.routes == n.routes && p.sm.finding == n.sm.finding
  {
    RouteKeeps(u, n, Built(n, destination, kind, value));
  }

  lemma AckPlace(u: Setup, n: Node, m: Packet)
    ensures var p := Acknowledged(u, n, m);
            p.config == n.config && p.routes == n.routes && p.sm.finding == n.sm.finding
  {
    hide Route;
    RouteKeeps(u, n, AckOf(n, m));
  }

  lemma CheckPlace(u: Setup, n: Node, now: nat, reply: byte)
    ensures var p := Checked(u, n, false, now, reply);
            && p.config.nodeId == n.config.nodeId && p.config.parent == n.config.parent && p.routes == n.routes
            && p.sm.finding == n.sm.finding
  {
    hide Pinged;
    PingPlace(u, n, reply);
  }

  lemma PingPlace(u: Setup, n: Node, reply: byte)
    ensures var p := Pinged(u, n, GATEWAY_ADDRESS, reply);
            p.config == n.config && p.routes == n.routes && p.sm.finding == n.sm.finding
  {
    hide Post;
    PostPlace(u, n.(sm := n.sm.(pong := INVALID_HOPS, pingActive := true)), GATEWAY_ADDRESS, Ping, 1);
  }

  lemma AddressedPlace(u: Setup, n: Node, m: Packet)
    requires !n.sm.finding && (u.gateway || u.nodeId != AUTO)
    ensures var p := Addressed(u, n, m);
            p.config == n.config && p.routes == n.routes && !p.sm.finding
  {
    hide Acknowledged, Post;
    AckPlace(u, n, m);
    PostPlace(u, Acknowledged(u, n, m), m.sender, Pong, 1);
  }

  lemma BroadcastedPlace(u: Setup, n: Node, m: Packet, now: nat, reply: byte)
    ensures var p := Broadcasted(u, n, m, now, reply);
            && p.config.nodeId == n.config.nodeId && p.config.parent == n.config.parent && p.routes == n.routes
            && p.sm.finding == n.sm.finding
  {
    hide Route, Post, Checked;
    CheckPlace(u, n, now, reply);
    var checked := Checked(u, n, false, now, reply);
    PostPlace(u, checked.(sm := checked.sm.(lastCheck := now)), m.sender, FindParentResponse, checked.config.distance);
    PostPlace(u, n, m.sender, DiscoverResponse, n.config.parent);
    RouteKeeps(u, n, m);
    RouteKeeps(u, Post(u, n, m.sender, DiscoverResponse, n.config.parent), m);
  }

  /** Outside the search, hearing a message changes neither the parent nor an id that is not handed out. */
  lemma PlaceStays(u: Setup, n: Node, m: Packet, now: nat, reply: byte)
    requires !n.sm.finding && (u.gateway || u.nodeId != AUTO)
    ensures var p := Process(u, n, m, now, reply);
            && p.config.nodeId == n.config.nodeId && p.config.parent == n.config.parent && !p.sm.finding
            && p.routes == Learned(u, n.config, n.routes, m)
  {
    hide Route, Addressed, Broadcasted, Learned;
    var heard := n.(routes := Learned(u, n.config, n.routes, m), sm := n.sm.(received := true));
    AddressedPlace(u, heard, m);
    BroadcastedPlace(u, heard, m, now, reply);
    RouteKeeps(u, heard, Stepped(m));
  }

  /** The table holds for every node the neighbour over which the last of its messages has come that did not come from
      the parent. */
  lemma {:induction false} RoutesAreLatest(u: Setup, n: Node, hs: seq<Hearing>, y: byte)
    requires !n.sm.finding && (u.gateway || u.nodeId != AUTO)
    ensures var id, parent, routes := n.config.nodeId, n.config.parent, Processed(u, n, hs).routes;
            && (forall k: nat :: TeachesLast(u, id, parent, hs, y, k) ==> routes[y] == hs[k].m.last)
            && (NoneTeaches(u, id, parent, hs, y) ==> routes[y] == n.routes[y])
    decreases |hs|
  {
    if hs != [] {
      hide Process, Teaches, NoneTeaches;
      var h := hs[0];
      var id, parent := n.config.nodeId, n.config.parent;
      var p := Process(u, n, h.m, h.now, h.reply);
      PlaceStays(u, n, h.m, h.now, h.reply);
      TaughtBy(u, n.config, n.routes, h.m, y);
      RoutesAreLatest(u, p, hs[1..], y);
      NoneOfRest(u, id, parent, hs, y);
      forall k: nat | TeachesLast(u, id, parent, hs, y, k)
        ensures Processed(u, n, hs).routes[y] == hs[k].m.last
      {
        if k > 0 {
          assert hs[1..][k..] == hs[k + 1..];
          assert TeachesLast(u, id, parent, hs[1..], y, k - 1);
        }
      }
    }
  }

  /** A repeater that forgets its routes knows afterwards the way to those only that it has heard since. */
  lemma ForgottenUntilHeard(u: Setup, n: Node, hs: seq<Hearing>, y: byte)
    requires !n.sm.finding && (u.gateway || u.nodeId != AUTO) && NoneTeaches(u, n.config.nodeId, n.config.parent, hs, y)
    ensures Processed(u, Step(u, n, ClearRoutes), hs).routes[y] == AUTO
  {
    hide Processed, NoneTeaches;
    RoutesAreLatest(u, Step(u, n, ClearRoutes), hs, y);
  }

  lemma TaughtBy(u: Setup, config: NodeConfig, routes: Table, m: Packet, y: byte)
    ensures Learned(u, config, routes, m)[y] ==
              if Teaches(u, config.nodeId, config.parent, m, y) then m.last else routes[y]
  {
  }

  lemma NoneOfRest(u: Setup, id: byte, parent: byte, hs: seq<Hearing>, y: byte)
    requires hs != []
    ensures NoneTeaches(u, id, parent, hs, y) ==>
              !Teaches(u, id, parent, hs[0].m, y) && NoneTeaches(u, id, parent, hs[1..], y)
  {
    hide Teaches;
  }
}
