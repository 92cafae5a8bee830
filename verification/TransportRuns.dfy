/**
 When a node leaves a state of its transport, for which other, and how it comes up: from power-on over the search
 for a parent, an id and the uplink check to the ready state, and back when its uplink is lost.
 */
module TransportRuns {
  import opened Words
  import opened TransportSpec

  // ----- Entering a state -----

  function FrameTo(n: Node, to: byte, destination: byte, kind: Kind): Frame {
    Frame(to, Packet(n.config.nodeId, n.config.nodeId, destination, kind, false, false, 0))
  }

  function ParentRequest(n: Node): Frame {
    FrameTo(n, BROADCAST_ADDRESS, BROADCAST_ADDRESS, FindParentRequest)
  }

  function IdRequestOf(n: Node): Frame {
    FrameTo(n, n.config.parent, GATEWAY_ADDRESS, IdRequest)
  }

  /** p is in the given state since now; a state that is entered anew counts a retry. */
  predicate Entered(n: Node, p: Node, stage: Stage, now: nat) {
    && p.sm.stage == stage && p.sm.entered == now
    && p.sm.retries == if n.sm.stage == stage then (n.sm.retries + 1) % 8 else 0
  }

  /** p looks for a parent, knows none, and has just asked everybody. */
  predicate StartsSearch(n: Node, p: Node, now: nat) {
    && Entered(n, p, Parent, now) && p.sm.finding && !p.sm.uplinkOk && !p.sm.preferredFound
    && p.sm.active == n.sm.active && p.sm.failures == n.sm.failures
    && p.config == n.config.(parent := AUTO, distance := DISTANCE_INVALID)
    && p.stored == n.stored && p.air == n.air + [ParentRequest(n)]
  }

  predicate Fails(n: Node, p: Node, now: nat) {
    && Entered(n, p, Failure, now) && !p.sm.active && !p.sm.uplinkOk
    && p.sm.failures == (if n.sm.failures < 7 then n.sm.failures + 1 else n.sm.failures)
    && p.config == n.config && p.air == n.air
  }

  lemma EnteringSearch(u: Setup, n: Node, now: nat)
    requires !u.parentIsStatic
    ensures StartsSearch(n, Switch(u, n, Parent, now), now)
    ensures Switch(u, n, Parent, now).routes == n.routes
  {
    hide EnterInit, EnterId, EnterUplink, EnterReady, EnterFailure, Post;
    var placed := n.(sm := Placed(n.sm, Parent));
    var sm := placed.sm.(uplinkOk := false, preferredFound := false, finding := true);
    var asking := placed.(sm := sm, config := n.config.(distance := DISTANCE_INVALID, parent := AUTO));
    PostKeeps(u, asking, BROADCAST_ADDRESS, FindParentRequest, 0);
    BroadcastGoesOut(u, asking, FindParentRequest);
  }

  /** A broadcast goes out even while a parent is looked for. */
  lemma BroadcastGoesOut(u: Setup, n: Node, kind: Kind)
    ensures var p := Post(u, n, BROADCAST_ADDRESS, kind, 0);
            && p.routes == n.routes && p.stored == n.stored
            && p.air == n.air + [FrameTo(n, BROADCAST_ADDRESS, BROADCAST_ADDRESS, kind)]
  {
    RouteKeeps(u, n, Built(n, BROADCAST_ADDRESS, kind, 0));
  }

  lemma IdIsAskedFor(u: Setup, n: Node)
    requires !n.sm.finding
    ensures var p := EnterId(u, n);
            && p.sm == n.sm.(failedTx := p.sm.failedTx)
            && p.config == n.config && p.stored == n.stored && p.routes == n.routes
            && p.air == n.air + if n.config.nodeId == AUTO then [IdRequestOf(n)] else []
  {
    hide Post;
    PostKeeps(u, n, GATEWAY_ADDRESS, IdRequest, 0);
    PostSends(u, n, GATEWAY_ADDRESS, IdRequest, 0);
  }

  lemma EnteringId(u: Setup, n: Node, now: nat)
    requires !n.sm.finding
    ensures var p := Switch(u, n, Id, now);
            && Entered(n, p, Id, now) && !p.sm.finding && p.sm.uplinkOk == n.sm.uplinkOk
            && p.sm.active == n.sm.active && p.sm.pingActive == n.sm.pingActive
            && p.config == n.config && p.stored == n.stored && p.routes == n.routes
            && p.air == n.air + if n.config.nodeId == AUTO then [IdRequestOf(n)] else []
  {
    hide EnterId, Switch;
    SwitchToId(u, n, now);
    IdIsAskedFor(u, n.(sm := Placed(n.sm, Id)));
  }

  lemma SwitchToId(u: Setup, n: Node, now: nat)
    ensures var t := EnterId(u, n.(sm := Placed(n.sm, Id)));
            Switch(u, n, Id, now) == t.(sm := t.sm.(entered := now))
  {
    hide EnterId;
  }

  lemma UplinkKeeps(u: Setup, n: Node)
    ensures var p := EnterUplink(u, n);
            && p.sm == n.sm.(failedTx := p.sm.failedTx, pong := p.sm.pong, pingActive := p.sm.pingActive)
            && p.stored == n.stored
  {
    hide Post;
    var asking := n.(sm := n.sm.(pong := INVALID_HOPS, pingActive := true));
    PostKeeps(u, asking, GATEWAY_ADDRESS, Ping, 1);
    PostStored(u, asking, GATEWAY_ADDRESS, Ping, 1);
  }

  lemma PostStored(u: Setup, n: Node, destination: byte, kind: Kind, value: byte)
    ensures Post(u, n, destination, kind, value).stored == n.stored
  {
    RouteKeeps(u, n, Built(n, destination, kind, value));
  }

  lemma EnteringUplinkCheck(u: Setup, n: Node, now: nat)
    requires !n.sm.finding
    ensures var p := Switch(u, n, Uplink, now);
            && Entered(n, p, Uplink, now) && p.config == n.config && p.stored == n.stored && p.routes == n.routes
            && p.sm.active == n.sm.active && !p.sm.finding && p.sm.uplinkOk == n.sm.uplinkOk
            && p.air == n.air + (if u.uplinkCheck then [UplinkPingOf(n.config)] else [])
            && (u.uplinkCheck ==> p.sm.pong == INVALID_HOPS && p.sm.pingActive)
  {
    hide EnterUplink, Switch;
    var placed := n.(sm := Placed(n.sm, Uplink));
    SwitchToUplink(u, n, now);
    UplinkKeeps(u, placed);
    UplinkPings(u, placed);
  }

  lemma SwitchToUplink(u: Setup, n: Node, now: nat)
    ensures var t := EnterUplink(u, n.(sm := Placed(n.sm, Uplink)));
            Switch(u, n, Uplink, now) == t.(sm := t.sm.(entered := now))
  {
    hide EnterUplink;
  }

  lemma SwitchToFailure(u: Setup, n: Node, now: nat)
    ensures var t := EnterFailure(n.(sm := Placed(n.sm, Failure)));
            Switch(u, n, Failure, now) == t.(sm := t.sm.(entered := now))
  {
    hide EnterFailure;
  }

  lemma EnteringFailure(u: Setup, n: Node, now: nat)
    requires n.sm.failures <= MAX_FAILURES
    ensures Fails(n, Switch(u, n, Failure, now), now)
  {
    hide Switch;
    SwitchToFailure(u, n, now);
  }

  predicate Restarts(n: Node, p: Node, now: nat) {
    && Entered(n, p, Init, now) && !p.sm.active && !p.sm.pingActive && p.config == n.stored && p.stored == n.stored
    && p.sm.failures == n.sm.failures && p.air == n.air && p.sm.finding == n.sm.finding
  }

  lemma EnteringInit(u: Setup, n: Node, now: nat)
    ensures Restarts(n, Switch(u, n, Init, now), now)
  {
    hide EnterFailure, EnterParent, EnterId, EnterUplink, EnterReady;
  }

  /** p has an uplink; transmission and other failures are forgotten. */
  predicate IsUp(n: Node, p: Node, now: nat) {
    && Entered(n, p, Ready, now) && p.sm.uplinkOk && p.sm.active == n.sm.active && p.sm.failures == 0
    && p.sm.failedTx == 0 && p.sm.finding == n.sm.finding && p.air == n.air && p.routes == n.routes
    && p.stored == n.stored
  }

  lemma ComingUp(u: Setup, n: Node, now: nat)
    ensures IsUp(n, Switch(u, n, Ready, now), now) && Switch(u, n, Ready, now).config == n.config
  {
    hide EnterInit, EnterParent, EnterId, EnterUplink, EnterFailure;
  }

  // ----- When a state is left, and for which -----

  /** The search ends after two seconds, or with the preferred parent's report: with a parent in the search for an
      id, parent and distance kept; without one it is repeated three times, and then the transport fails. A static
      parent ends it at once. */
  lemma TickInSearch(u: Setup, n: Node, now: nat, radioOk: bool)
    requires Consistent(u, n) && n.sm.stage == Parent
    ensures var p := Update(u, n, now, radioOk);
            var over := n.sm.preferredFound || U32(now - n.sm.entered) > 2000;
            && (!u.parentIsStatic && !over ==> p == n)
            && (u.parentIsStatic || (over && n.config.parent != AUTO) ==>
                  && Entered(n, p, Id, now) && !p.sm.finding && p.sm.active && p.config == n.config
                  && p.stored == n.stored && p.air == n.air + if n.config.nodeId == AUTO then [IdRequestOf(n)] else [])
            && (!u.parentIsStatic && over && n.config.parent == AUTO && n.sm.retries < 3 ==> StartsSearch(n, p, now))
            && (!u.parentIsStatic && over && n.config.parent == AUTO && n.sm.retries >= 3 ==> Fails(n, p, now))
  {
    hide Switch;
    EnteringFailure(u, n, now);
    if u.parentIsStatic { EnteringId(u, n, now); } else { EnteringSearch(u, n, now); }
    EnteringId(u, n.(sm := n.sm.(finding := false)), now);
  }

  /** The search for an id ends with an id; without one it is repeated three times, two seconds each, and then the
      transport fails. */
  lemma TickInIdSearch(u: Setup, n: Node, now: nat, radioOk: bool)
    requires Consistent(u, n) && n.sm.stage == Id
    ensures var p := Update(u, n, now, radioOk);
            var over := U32(now - n.sm.entered) > 2000;
            && (n.config.nodeId != AUTO ==>
                  && Entered(n, p, Uplink, now) && p.sm.active && p.config == n.config && p.stored == n.stored
                  && p.air == n.air + (if u.uplinkCheck then [UplinkPingOf(n.config)] else [])
                  && (u.uplinkCheck ==> p.sm.pong == INVALID_HOPS && p.sm.pingActive))
            && (n.config.nodeId == AUTO && !over ==> p == n)
            && (n.config.nodeId == AUTO && over && n.sm.retries < 3 ==>
                  Entered(n, p, Id, now) && p.config == n.config && p.air == n.air + [IdRequestOf(n)])
            && (n.config.nodeId == AUTO && over && n.sm.retries >= 3 ==> Fails(n, p, now))
  {
    hide Switch;
    EnteringUplinkCheck(u, n, now);
    EnteringId(u, n, now);
    EnteringFailure(u, n, now);
  }

  /** The uplink check ends with the pong, whose hops become the distance, or at once if it is disabled; without a
      pong it is repeated three times, two seconds each, and then a parent is looked for again. */
  lemma TickInUplinkCheck(u: Setup, n: Node, now: nat, radioOk: bool)
    requires Consistent(u, n) && n.sm.stage == Uplink
    ensures var p := Update(u, n, now, radioOk);
            var over := U32(now - n.sm.entered) > 2000;
            && (!u.uplinkCheck ==> IsUp(n, p, now) && p.config == n.config)
            && (u.uplinkCheck && n.sm.pong != INVALID_HOPS ==>
                  IsUp(n, p, now) && p.config == n.config.(distance := n.sm.pong) && p.sm.lastCheck == now)
            && (u.uplinkCheck && n.sm.pong == INVALID_HOPS && !over ==> p == n)
            && (u.uplinkCheck && n.sm.pong == INVALID_HOPS && over && n.sm.retries < 3 ==>
                  Entered(n, p, Uplink, now) && p.config == n.config && p.air == n.air + [UplinkPingOf(n.config)])
            && (u.uplinkCheck && n.sm.pong == INVALID_HOPS && over && n.sm.retries >= 3 ==>
                  if u.parentIsStatic then Entered(n, p, Parent, now) && !p.sm.pingActive && p.air == n.air
                  else StartsSearch(n, p, now) && !p.sm.pingActive)
  {
    hide Switch;
    var up := n.(sm := n.sm.(lastCheck := now), config := n.config.(distance := n.sm.pong));
    ComingUp(u, n, now);
    ComingUp(u, up, now);
    LastCheckKept(u, up, now);
    EnteringUplinkCheck(u, n, now);
    var lost := n.(sm := n.sm.(pingActive := false));
    PingClosed(u, lost, now);
    if !u.parentIsStatic { EnteringSearch(u, lost, now); } else { EnteringStatic(u, lost, now); }
  }

  lemma LastCheckKept(u: Setup, n: Node, now: nat)
    ensures Switch(u, n, Ready, now).sm.lastCheck == n.sm.lastCheck
  {
    hide Switch;
    SwitchToReady(u, n, now);
  }

  lemma SwitchToReady(u: Setup, n: Node, now: nat)
    ensures var t := EnterReady(n.(sm := Placed(n.sm, Ready)));
            Switch(u, n, Ready, now) == t.(sm := t.sm.(entered := now))
  {
    hide EnterReady;
  }

  lemma PingClosed(u: Setup, n: Node, now: nat)
    ensures Switch(u, n, Parent, now).sm.pingActive == n.sm.pingActive
  {
    hide EnterInit, EnterParent, EnterId, EnterUplink, EnterReady, EnterFailure;
    SearchKeepsPing(u, n.(sm := Placed(n.sm, Parent)));
  }

  lemma SearchKeepsPing(u: Setup, n: Node)
    ensures EnterParent(u, n).sm.pingActive == n.sm.pingActive
  {
    hide Post;
    var sm := n.sm.(uplinkOk := false, preferredFound := false, finding := true);
    PostKeeps(u, n.(sm := sm, config := n.config.(distance := DISTANCE_INVALID, parent := AUTO)), BROADCAST_ADDRESS,
              FindParentRequest, 0);
  }

  lemma EnteringStatic(u: Setup, n: Node, now: nat)
    requires u.parentIsStatic
    ensures var p := Switch(u, n, Parent, now);
            && Entered(n, p, Parent, now) && !p.sm.finding && p.air == n.air && p.sm.active == n.sm.active
            && p.config == n.config.(parent := u.parentId, distance := 1)
  {
    hide EnterInit, EnterId, EnterUplink, EnterReady, EnterFailure, Post;
  }

  /** A ready node looks for a parent again exactly if more than ten transmissions in a row over its parent have
      failed, or five for a node that does not repeat; a gateway stays, and discovers its network every 20 minutes. */
  lemma TickWhenReady(u: Setup, n: Node, now: nat, radioOk: bool)
    requires Consistent(u, n) && n.sm.stage == Ready
    ensures var p := Update(u, n, now, radioOk);
            var lost := n.sm.failedTx > if u.repeater then 10 else 5;
            && (p.sm.stage != Ready <==> !u.gateway && lost && !u.parentIsStatic)
            && (p.sm.stage != Ready ==> StartsSearch(n, p, now))
            && (!u.gateway && !lost ==> p == n)
            && (!u.gateway && lost && u.parentIsStatic ==> p == n.(sm := n.sm.(failedTx := 0)))
            && (u.gateway ==> p.config == n.config && p.sm.uplinkOk)
            && (u.gateway ==>
                  if U32(now - n.sm.lastDiscovery) > 1_200_000 then
                    p.sm.lastDiscovery == now && p.air == n.air + [DiscoveryOf(n)]
                  else p == n)
  {
    hide Switch, Post;
    if !u.parentIsStatic { EnteringSearch(u, n, now); }
    var due := n.(sm := n.sm.(lastDiscovery := now));
    PostKeeps(u, due, BROADCAST_ADDRESS, DiscoverRequest, 0);
    BroadcastGoesOut(u, due, DiscoverRequest);
  }

  function DiscoveryOf(n: Node): Frame {
    FrameTo(n, BROADCAST_ADDRESS, BROADCAST_ADDRESS, DiscoverRequest)
  }

  /** A failed transport starts over after ten seconds, or a minute when it has failed seven times. */
  lemma TickInFailure(u: Setup, n: Node, now: nat, radioOk: bool)
    requires n.sm.stage == Failure
    ensures var p := Update(u, n, now, radioOk);
            var pause := if n.sm.failures == 7 then 60_000 else 10_000;
            if U32(now - n.sm.entered) > pause then Restarts(n, p, now) else p == n
  {
    hide Switch;
    EnteringInit(u, n, now);
  }

  /** The first tick: a gateway is ready at once, a node without a radio fails, and any other looks for its parent
      under the id it is built with, or else under the one it has stored; the id of the gateway is refused. */
  lemma TickAfterStart(u: Setup, n: Node, now: nat, radioOk: bool)
    requires Consistent(u, n) && n.sm.stage == Init
    ensures var p := Update(u, n, now, radioOk);
            var id := if u.nodeId != AUTO then u.nodeId else n.config.nodeId;
            && (!radioOk ==> Fails(n, p, now))
            && (radioOk && u.gateway ==>
                  && IsUp(n.(sm := n.sm.(active := true)), p, now)
                  && p.config == NodeConfig(GATEWAY_ADDRESS, GATEWAY_ADDRESS, 0))
            && (radioOk && !u.gateway && id == GATEWAY_ADDRESS ==> p.sm.stage == Failure && p.config.nodeId == AUTO)
            && (radioOk && !u.gateway && id != GATEWAY_ADDRESS ==>
                  && p.sm.stage == Parent && p.sm.entered == now && p.sm.retries == 0 && p.sm.active
                  && p.config.nodeId == id && !p.sm.preferredFound
                  && (u.parentIsStatic ==> p.config.parent == u.parentId && p.config.distance == 1 && p.air == n.air)
                  && (!u.parentIsStatic ==>
                        && p.sm.finding && p.config.parent == AUTO && p.config.distance == DISTANCE_INVALID
                        && p.air == n.air + [ParentRequest(p)]))
  {
    hide Switch;
    EnteringFailure(u, n, now);
    var on := n.(sm := n.sm.(active := true));
    ComingUp(u, on.(config := NodeConfig(GATEWAY_ADDRESS, GATEWAY_ADDRESS, 0)), now);
    var named :=
      if u.nodeId == AUTO then on
      else on.(config := on.config.(nodeId := u.nodeId), stored := on.stored.(nodeId := u.nodeId));
    var taken := Assigned(named, named.config.nodeId);
    EnteringFailure(u, Assigned(named, GATEWAY_ADDRESS), now);
    PreferredForgotten(u, named, now);
    PreferredForgotten(u, taken, now);
    if u.parentIsStatic {
      EnteringStatic(u, named, now);
      EnteringStatic(u, taken, now);
    } else {
      EnteringSearch(u, named, now);
      EnteringSearch(u, taken, now);
    }
  }

  lemma PreferredForgotten(u: Setup, n: Node, now: nat)
    ensures !Switch(u, n, Parent, now).sm.preferredFound
  {
    hide EnterInit, EnterParent, EnterId, EnterUplink, EnterReady, EnterFailure;
    PreferredForgottenOn(u, n.(sm := Placed(n.sm, Parent)));
  }

  lemma PreferredForgottenOn(u: Setup, n: Node)
    ensures !EnterParent(u, n).sm.preferredFound
  {
    hide Post;
    var sm := n.sm.(uplinkOk := false, preferredFound := false, finding := true);
    PostKeeps(u, n.(sm := sm, config := n.config.(distance := DISTANCE_INVALID, parent := AUTO)), BROADCAST_ADDRESS,
              FindParentRequest, 0);
  }

  // ----- Nothing but ticks and failed sanity checks moves the machine -----

  /** What the ticks look at, apart from the parent, the id and the counters of the radio. */
  predicate SameState(n: Node, p: Node) {
    && p.sm.stage == n.sm.stage && p.sm.entered == n.sm.entered && p.sm.retries == n.sm.retries
    && p.sm.failures == n.sm.failures && p.sm.active == n.sm.active && p.sm.uplinkOk == n.sm.uplinkOk
    && p.sm.finding == n.sm.finding && p.sm.lastDiscovery == n.sm.lastDiscovery
  }

  lemma PostMovesNothing(u: Setup, n: Node, destination: byte, kind: Kind, value: byte)
    ensures SameState(n, Post(u, n, destination, kind, value))
  {
    hide Post;
    PostKeeps(u, n, destination, kind, value);
  }

  lemma AckMovesNothing(u: Setup, n: Node, m: Packet)
    ensures SameState(n, Acknowledged(u, n, m))
  {
    hide Route;
    RouteKeeps(u, n, AckOf(n, m));
  }

  lemma HandledMovesNothing(u: Setup, n: Node, m: Packet)
    ensures SameState(n, Handled(u, n, m))
  {
    hide Post, Better;
    PostMovesNothing(u, n, m.sender, Pong, 1);
  }

  lemma AddressedMovesNothing(u: Setup, n: Node, m: Packet)
    ensures SameState(n, Addressed(u, n, m))
  {
    hide Acknowledged, Handled;
    AckMovesNothing(u, n, m);
    HandledMovesNothing(u, Acknowledged(u, n, m), m);
  }

  lemma CheckMovesNothing(u: Setup, n: Node, target: byte, force: bool, now: nat, reply: byte)
    ensures SameState(n, Pinged(u, n, target, reply)) && SameState(n, Checked(u, n, force, now, reply))
  {
    hide Pinged;
    PingMovesNothing(u, n, target, reply);
    PingMovesNothing(u, n, GATEWAY_ADDRESS, reply);
  }

  lemma PingMovesNothing(u: Setup, n: Node, target: byte, reply: byte)
    ensures SameState(n, Pinged(u, n, target, reply))
  {
    hide Post;
    PostKeeps(u, n.(sm := n.sm.(pong := INVALID_HOPS, pingActive := true)), target, Ping, 1);
  }

  lemma BroadcastedMovesNothing(u: Setup, n: Node, m: Packet, now: nat, reply: byte)
    ensures SameState(n, Broadcasted(u, n, m, now, reply))
  {
    hide Route, Post, Checked;
    CheckMovesNothing(u, n, GATEWAY_ADDRESS, false, now, reply);
    var checked := Checked(u, n, false, now, reply);
    PostMovesNothing(u, checked.(sm := checked.sm.(lastCheck := now)), m.sender, FindParentResponse,
                     checked.config.distance);
    var answered := Post(u, n, m.sender, DiscoverResponse, n.config.parent);
    PostMovesNothing(u, n, m.sender, DiscoverResponse, n.config.parent);
    RouteKeeps(u, n, m);
    RouteKeeps(u, answered, m);
  }

  lemma ProcessMovesNothing(u: Setup, n: Node, m: Packet, now: nat, reply: byte)
    ensures SameState(n, Process(u, n, m, now, reply))
  {
    hide Route, Addressed, Broadcasted, Learned;
    var heard := n.(routes := Learned(u, n.config, n.routes, m), sm := n.sm.(received := true));
    AddressedMovesNothing(u, heard, m);
    BroadcastedMovesNothing(u, heard, m, now, reply);
    RouteKeeps(u, heard, Stepped(m));
  }

  /** Whatever is heard, sent, pinged or checked, the state stays, and since when; a failed sanity check of an active
      transport is a failure. An inactive transport hears nothing, and one without an uplink sends nothing on its
      own. */
  lemma OnlyTicksMove(u: Setup, n: Node, e: Event)
    requires !e.Tick? && n.sm.failures <= MAX_FAILURES
    ensures if e.Sanity? && n.sm.active && !e.fine then Fails(n, Step(u, n, e), e.now)
            else SameState(n, Step(u, n, e))
    ensures e.Sanity? && (!n.sm.active || e.fine) ==> Step(u, n, e) == n
    ensures e.Hear? && !n.sm.active ==> Step(u, n, e) == n
    ensures e.Send? && !n.sm.uplinkOk ==> Step(u, n, e) == n
  {
    hide Process, Switch, Route, Pinged, Checked;
    match e
    case Hear(h) => ProcessMovesNothing(u, n, h.m, h.now, h.reply);
    case Sanity(fine, now) => EnteringFailure(u, n, now);
    case Send(m) => RouteKeeps(u, n, m);
    case PingNode(target, reply) => CheckMovesNothing(u, n, target, false, 0, reply);
    case CheckUplink(force, now, reply) => CheckMovesNothing(u, n, GATEWAY_ADDRESS, force, now, reply);
    case _ =>
  }

  // ----- From the search to the uplink -----

  lemma {:induction false} ProcessedKeeps(u: Setup, n: Node, hs: seq<Hearing>)
    requires u.Valid() && Consistent(u, n) && n.sm.active
    ensures var p := Processed(u, n, hs);
            SameState(n, p) && Consistent(u, p)
    decreases |hs|
  {
    if hs != [] {
      hide Process, Consistent;
      ProcessMovesNothing(u, n, hs[0].m, hs[0].now, hs[0].reply);
      StepKeepsConsistent(u, n, Hear(hs[0]));
      ProcessedKeeps(u, Process(u, n, hs[0].m, hs[0].now, hs[0].reply), hs[1..]);
    }
  }

  function Hears(hs: seq<Hearing>): (events: seq<Event>)
    ensures |events| == |hs|
  {
    if hs == [] then [] else [Hear(hs[0])] + Hears(hs[1..])
  }

  lemma {:induction false} HearsAreProcessed(u: Setup, n: Node, hs: seq<Hearing>, rest: seq<Event>)
    requires n.sm.active
    ensures Run(u, n, Hears(hs) + rest) == Run(u, Processed(u, n, hs), rest)
    decreases |hs|
  {
    if hs == [] {
      assert Hears(hs) + rest == rest;
    } else {
      hide Process, Step, SameState;
      var h := hs[0];
      StaysActive(u, n, h);
      HearIsProcess(u, n, h);
      AfterFirst(Hear(h), Hears(hs[1..]), rest);
      HearsAreProcessed(u, Process(u, n, h.m, h.now, h.reply), hs[1..], rest);
    }
  }

  lemma AfterFirst(first: Event, a: seq<Event>, b: seq<Event>)
    ensures ([first] + a + b)[0] == first && ([first] + a + b)[1..] == a + b
  {
  }

  lemma StaysActive(u: Setup, n: Node, h: Hearing)
    requires n.sm.active
    ensures Process(u, n, h.m, h.now, h.reply).sm.active
  {
    hide Process;
    ProcessMovesNothing(u, n, h.m, h.now, h.reply);
  }

  lemma HearIsProcess(u: Setup, n: Node, h: Hearing)
    requires n.sm.active
    ensures Step(u, n, Hear(h)) == Process(u, n, h.m, h.now, h.reply)
  {
    hide Process;
  }

  /** The node that the reports of a search make the parent, and how far it is from the gateway. */
  predicate Chosen(u: Setup, rs: seq<Report>, k: nat) {
    FirstPreferred(u, rs, k) || (NonePreferred(u, rs) && FirstLeast(rs, k))
  }

  /** A search over, with a parent chosen: the node goes on to the search for an id, with the chosen parent. */
  lemma SearchEndsInChoice(u: Setup, n: Node, hs: seq<Hearing>, k: nat, now: nat)
    requires u.Valid() && Consistent(u, n) && Searching(u, n) && !n.sm.preferredFound
    requires n.config.parent == AUTO && n.config.distance == DISTANCE_INVALID
    requires U32(now - n.sm.entered) > 2000
    requires var rs := Reports(u, n, hs); Chosen(u, rs, k) && rs[k].sender != AUTO
    ensures var r := Reports(u, n, hs)[k];
            var p := Update(u, Processed(u, n, hs), now, true);
            && p.sm.stage == Id && p.sm.entered == now && p.sm.retries == 0 && p.sm.active && Consistent(u, p)
            && p.config == Processed(u, n, hs).config
            && p.config.parent == r.sender && p.config.distance == r.distance + 1
  {
    hide Update, Processed, Consistent, Reports, FirstPreferred, FirstLeast, NonePreferred;
    SearchingIs(u, n);
    ParentChoice(u, n, hs);
    ProcessedKeeps(u, n, hs);
    ChosenIs(u, Reports(u, n, hs), k);
    TickInSearch(u, Processed(u, n, hs), now, true);
    UpdateKeepsConsistent(u, Processed(u, n, hs), now, true);
  }

  lemma SearchingIs(u: Setup, n: Node)
    requires Consistent(u, n) && Searching(u, n)
    ensures n.sm.active && n.sm.stage == Parent && !u.parentIsStatic
  {
  }

  lemma ChosenIs(u: Setup, rs: seq<Report>, k: nat)
    requires Chosen(u, rs, k)
    ensures k < |rs| && (FirstPreferred(u, rs, k) ==> rs[k].sender == u.parentId)
  {
  }

  /** From there, with an id: a tick asks the gateway, the pong comes, and the next tick finds the uplink. */
  lemma IdThenUp(u: Setup, n: Node, asked: nat, pong: Hearing, now: nat)
    requires u.Valid() && Consistent(u, n) && n.sm.stage == Id && u.uplinkCheck && n.config.nodeId != AUTO
    requires pong.m.destination == n.config.nodeId && pong.m.kind == Pong && !pong.m.isAck
    requires pong.m.value != INVALID_HOPS
    ensures var end := Run(u, n, [Tick(asked, true), Hear(pong), Tick(now, true)]);
            && end.sm.stage == Ready && end.sm.uplinkOk && Consistent(u, end)
            && end.config == n.config.(distance := pong.m.value)
  {
    hide Update, Process, Consistent;
    var events := [Tick(asked, true), Hear(pong), Tick(now, true)];
    TickInIdSearch(u, n, asked, true);
    var n1 := Step(u, n, events[0]);
    StepKeepsConsistent(u, n, events[0]);
    OutsideSearch(u, n1);
    UnicastReaction(u, n1, pong.m, pong.now, pong.reply);
    var n2 := Step(u, n1, events[1]);
    StepKeepsConsistent(u, n1, events[1]);
    TickInUplinkCheck(u, n2, now, true);
    StepKeepsConsistent(u, n2, events[2]);
    ThreeSteps(u, n, events);
  }

  lemma OutsideSearch(u: Setup, n: Node)
    requires Consistent(u, n) && n.sm.stage == Uplink
    ensures n.sm.active && !n.sm.finding
  {
  }

  lemma ThreeSteps(u: Setup, n: Node, events: seq<Event>)
    requires |events| == 3
    ensures Run(u, n, events) == Step(u, Step(u, Step(u, n, events[0]), events[1]), events[2])
  {
    hide Step;
    var rest := events[1..];
    assert rest[1..] == [events[2]] && rest[0] == events[1];
    var last := rest[1..];
    assert last[1..] == [];
    var n1 := Step(u, n, events[0]);
    var n2 := Step(u, n1, rest[0]);
    assert Run(u, n2, last) == Step(u, n2, events[2]);
    assert Run(u, n1, rest) == Run(u, n2, last);
  }

  lemma {:induction false} RunInTwoParts(u: Setup, n: Node, a: seq<Event>, b: seq<Event>)
    ensures Run(u, n, a + b) == Run(u, Run(u, n, a), b)
    decreases |a|
  {
    hide Step;
    if a == [] {
      assert a + b == b;
    } else {
      assert (a + b)[1..] == a[1..] + b;
      RunInTwoParts(u, Step(u, n, a[0]), a[1..], b);
    }
  }

  lemma OneStep(u: Setup, n: Node, e: Event)
    ensures Run(u, n, [e]) == Step(u, n, e)
  {
    hide Step;
    assert [e][1..] == [];
  }

  /** The way from power-on to the uplink, for a node that has an id: the first tick starts the search, reports come
      in, a tick more than two seconds later takes the chosen parent, the next one asks the gateway, and the one after
      the pong finds the uplink, with that parent and the hops of the pong. */
  lemma NodeComesUp(u: Setup, stored: NodeConfig, routes: Table, on: nat, start: nat, hs: seq<Hearing>, k: nat,
                    ends: nat, asked: nat, pong: Hearing, now: nat)
    requires u.Valid() && !u.gateway && !u.parentIsStatic && u.uplinkCheck
    requires var id := if u.nodeId != AUTO then u.nodeId else stored.nodeId; id != GATEWAY_ADDRESS && id != AUTO
    requires var n := Run(u, Boot(u, stored, routes, on), [Tick(start, true)]);
             && U32(ends - start) > 2000
             && Chosen(u, Reports(u, n, hs), k) && Reports(u, n, hs)[k].sender != AUTO
             && Processed(u, n, hs).config.nodeId != AUTO && pong.m.destination == Processed(u, n, hs).config.nodeId
    requires pong.m.kind == Pong && !pong.m.isAck && pong.m.value != INVALID_HOPS
    ensures var n := Run(u, Boot(u, stored, routes, on), [Tick(start, true)]);
            var events := [Tick(start, true)] + Hears(hs) + [Tick(ends, true)]
                        + [Tick(asked, true), Hear(pong), Tick(now, true)];
            var end := Run(u, Boot(u, stored, routes, on), events);
            && end.sm.stage == Ready && end.sm.uplinkOk
            && end.config.parent == Reports(u, n, hs)[k].sender && end.config.distance == pong.m.value
            && end.config.nodeId == Processed(u, n, hs).config.nodeId
  {
    hide Run, Step, Update, Process, Processed, Consistent, Chosen, Reports, Boot, Hears, Searching;
    var boot := Boot(u, stored, routes, on);
    var n := Run(u, boot, [Tick(start, true)]);
    FirstTick(u, stored, routes, on, start);
    SearchEndsInChoice(u, n, hs, k, ends);
    var last := [Tick(asked, true), Hear(pong), Tick(now, true)];
    var p := Update(u, Processed(u, n, hs), ends, true);
    IdThenUp(u, p, asked, pong, now);
    TickIsUpdate(u, Processed(u, n, hs), ends);
    OneStep(u, Processed(u, n, hs), Tick(ends, true));
    RunInTwoParts(u, Processed(u, n, hs), [Tick(ends, true)], last);
    HearsAreProcessed(u, n, hs, [Tick(ends, true)] + last);
    RunInTwoParts(u, boot, [Tick(start, true)], Hears(hs) + ([Tick(ends, true)] + last));
    assert [Tick(start, true)] + Hears(hs) + [Tick(ends, true)] + last
        == [Tick(start, true)] + (Hears(hs) + ([Tick(ends, true)] + last));
  }

  lemma TickIsUpdate(u: Setup, n: Node, now: nat)
    ensures Step(u, n, Tick(now, true)) == Update(u, n, now, true)
  {
  }

  lemma FirstTick(u: Setup, stored: NodeConfig, routes: Table, on: nat, start: nat)
    requires u.Valid() && !u.gateway && !u.parentIsStatic
    requires var id := if u.nodeId != AUTO then u.nodeId else stored.nodeId; id != GATEWAY_ADDRESS
    ensures var n := Run(u, Boot(u, stored, routes, on), [Tick(start, true)]);
            && Consistent(u, n) && Searching(u, n) && !n.sm.preferredFound && n.sm.active && n.sm.entered == start
            && n.config.parent == AUTO && n.config.distance == DISTANCE_INVALID
            && n.config.nodeId == (if u.nodeId != AUTO then u.nodeId else stored.nodeId)
            && n.sm.retries == 0 && n.air == [ParentRequest(n)]
  {
    hide Update, Consistent, Switch, Step, Run;
    var boot := Boot(u, stored, routes, on);
    BootIsInit(u, stored, routes, on);
    ReachableIsConsistent(u, stored, routes, on, []);
    RunOfNothing(u, boot);
    TickAfterStart(u, boot, start, true);
    OneStep(u, boot, Tick(start, true));
    TickIsUpdate(u, boot, start);
    UpdateKeepsConsistent(u, boot, start, true);
    UplinkIsReady(u, Update(u, boot, start, true));
  }

  lemma UplinkIsReady(u: Setup, n: Node)
    requires Consistent(u, n)
    ensures n.sm.uplinkOk <==> n.sm.stage == Ready
  {
  }

  lemma RunOfNothing(u: Setup, n: Node)
    ensures Run(u, n, []) == n
  {
  }

  lemma BootIsInit(u: Setup, stored: NodeConfig, routes: Table, on: nat)
    ensures var n := Boot(u, stored, routes, on);
            && n.sm.stage == Init && n.sm.entered == on && n.config == stored && n.stored == stored
            && n.routes == routes && n.air == [] && !n.sm.active && n.sm.failures == 0 && !n.sm.uplinkOk
  {
    hide EnterFailure, EnterParent, EnterId, EnterUplink, EnterReady;
  }

  /** A node without an id gets one on the way: the gateway's response names it, and it keeps the name. */
  lemma NodeGetsId(u: Setup, n: Node, response: Hearing, asked: nat, pong: Hearing, now: nat)
    requires u.Valid() && Consistent(u, n) && n.sm.stage == Id && u.uplinkCheck && u.nodeId == AUTO
    requires n.config.nodeId == AUTO && response.m.destination == AUTO && response.m.kind == IdResponse
    requires !response.m.isAck && response.m.value != AUTO && response.m.value != GATEWAY_ADDRESS
    requires pong.m.destination == response.m.value && pong.m.kind == Pong && !pong.m.isAck
    requires pong.m.value != INVALID_HOPS
    ensures var end := Run(u, n, [Hear(response)] + [Tick(asked, true), Hear(pong), Tick(now, true)]);
            && end.sm.stage == Ready && end.sm.uplinkOk && end.config.nodeId == response.m.value
            && end.config.parent == n.config.parent && end.config.distance == pong.m.value
    ensures Step(u, n, Hear(response)).stored.nodeId == response.m.value
  {
    hide Run, Step, Consistent, Process;
    var p := Step(u, n, Hear(response));
    NameIsTaken(u, n, response);
    StepKeepsConsistent(u, n, Hear(response));
    OneStep(u, n, Hear(response));
    IdThenUp(u, p, asked, pong, now);
    RunInTwoParts(u, n, [Hear(response)], [Tick(asked, true), Hear(pong), Tick(now, true)]);
  }

  lemma NameIsTaken(u: Setup, n: Node, response: Hearing)
    requires Consistent(u, n) && n.sm.stage == Id && u.nodeId == AUTO
    requires n.config.nodeId == AUTO && response.m.destination == AUTO && response.m.kind == IdResponse
    requires !response.m.isAck && response.m.value != AUTO && response.m.value != GATEWAY_ADDRESS
    ensures var p := Step(u, n, Hear(response));
            && p.sm.stage == Id && p.config == n.config.(nodeId := response.m.value)
            && p.stored.nodeId == response.m.value
  {
    hide Route;
    ProcessMovesNothing(u, n, response.m, response.now, response.reply);
    var m := response.m;
    var heard := n.(routes := Learned(u, n.config, n.routes, m), sm := n.sm.(received := true));
    RouteKeeps(u, heard, AckOf(heard, m));
  }

  // ----- From the uplink, or from a search in vain, back -----

  /** Without any report the search asks three times more, and then the transport fails. */
  lemma SearchGivesUp(u: Setup, n: Node, first: nat, second: nat, third: nat, fourth: nat)
    requires u.Valid() && Consistent(u, n) && Searching(u, n) && !n.sm.preferredFound && n.config.parent == AUTO
    requires n.sm.retries == 0 && U32(first - n.sm.entered) > 2000 && U32(second - first) > 2000
    requires U32(third - second) > 2000 && U32(fourth - third) > 2000
    ensures var n1 := Update(u, n, first, true);
            var n2 := Update(u, n1, second, true);
            var n3 := Update(u, n2, third, true);
            var end := Update(u, n3, fourth, true);
            && end.sm.stage == Failure && !end.sm.active
            && end.air == n.air + [ParentRequest(n), ParentRequest(n), ParentRequest(n)]
  {
    hide Update, Consistent;
    SearchingIs(u, n);
    TickInSearch(u, n, first, true);
    UpdateKeepsConsistent(u, n, first, true);
    var n1 := Update(u, n, first, true);
    TickInSearch(u, n1, second, true);
    UpdateKeepsConsistent(u, n1, second, true);
    var n2 := Update(u, n1, second, true);
    TickInSearch(u, n2, third, true);
    UpdateKeepsConsistent(u, n2, third, true);
    TickInSearch(u, Update(u, n2, third, true), fourth, true);
  }

  /** Each of the messages goes to the parent and is not acknowledged. */
  predicate AllLost(u: Setup, n: Node, ms: seq<Packet>)
    decreases |ms|
  {
    ms != [] ==>
      && Hop(u, n, ms[0]) == n.config.parent != BROADCAST_ADDRESS && !u.acked(|n.air|)
      && AllLost(u, Route(u, n, ms[0]), ms[1..])
  }

  function SendAll(ms: seq<Packet>): (events: seq<Event>)
    ensures |events| == |ms|
  {
    if ms == [] then [] else [Send(ms[0])] + SendAll(ms[1..])
  }

  /** One transmission: towards the parent failures are counted and a success forgets them; others, and those of the
      gateway, do not count. */
  lemma TransmissionsCount(u: Setup, n: Node, m: Packet)
    requires !Blocked(n, m)
    ensures var failed := !u.acked(|n.air|) && Hop(u, n, m) != BROADCAST_ADDRESS;
            Route(u, n, m).sm.failedTx ==
              if u.gateway || Hop(u, n, m) != n.config.parent then n.sm.failedTx
              else if failed then (n.sm.failedTx + 1) % 16 else 0
  {
    hide Hop;
  }

  lemma {:induction false} LossesAreCounted(u: Setup, n: Node, ms: seq<Packet>)
    requires !u.gateway && n.sm.uplinkOk && !n.sm.finding && AllLost(u, n, ms) && n.sm.failedTx + |ms| < 16
    ensures var p := Run(u, n, SendAll(ms));
            && p.sm == n.sm.(failedTx := n.sm.failedTx + |ms|) && p.config == n.config
    decreases |ms|
  {
    if ms != [] {
      hide Route, Hop, Blocked;
      RouteKeeps(u, n, ms[0]);
      NotBlocked(n, ms[0]);
      TransmissionsCount(u, n, ms[0]);
      assert SendAll(ms)[1..] == SendAll(ms[1..]) && SendAll(ms)[0] == Send(ms[0]);
      LossesAreCounted(u, Route(u, n, ms[0]), ms[1..]);
    }
  }

  lemma NotBlocked(n: Node, m: Packet)
    requires !n.sm.finding
    ensures !Blocked(n, m)
  {
  }

  /** A ready node that has come up looks for a parent again exactly when more than ten transmissions to its parent in a
      row, or five, have been lost. */
  lemma LostUplinkIsLeft(u: Setup, n: Node, ms: seq<Packet>, now: nat)
    requires u.Valid() && Consistent(u, n) && n.sm.stage == Ready && !u.gateway && !u.parentIsStatic
    requires AllLost(u, n, ms) && n.sm.failedTx == 0 && |ms| < 16
    ensures var p := Update(u, Run(u, n, SendAll(ms)), now, true);
            if |ms| > (if u.repeater then 10 else 5) then
              p.sm.stage == Parent && Searching(u, p) && p.config.parent == AUTO
            else p == Run(u, n, SendAll(ms))
  {
    hide Update, Consistent, Run;
    UplinkIsReady(u, n);
    ReadyIsNotFinding(u, n);
    LossesAreCounted(u, n, ms);
    RunKeepsConsistent(u, n, SendAll(ms));
    TickWhenReady(u, Run(u, n, SendAll(ms)), now, true);
  }

  lemma ReadyIsNotFinding(u: Setup, n: Node)
    requires Consistent(u, n) && n.sm.stage == Ready
    ensures !n.sm.finding
  {
  }
}
