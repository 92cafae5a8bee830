/**
 A broadcast of the gateway spreading over the nodes. Radio ranges are arbitrary: anybody may hear any
 transmission, or miss it, but nobody hears the same transmission twice, or hears itself.
 */
module Broadcast {
  import opened Words
  import opened TransportSpec

  /** The nodes, the transmissions of the broadcast in order, and who has heard which. */
  datatype Field = Field(nodes: map<byte, Node>, log: seq<Packet>, heard: set<(byte, nat)>)

  /** Who the parents are, and how the nodes are built. */
  datatype Layout = Layout(parent: byte -> byte, setup: byte -> Setup)

  datatype Action =
    | Hears(n: byte, i: nat, now: nat, reply: byte)
    | Other(n: byte, e: Event)

  /** Besides hearing the broadcast, a node may do anything that keeps its place and sends no broadcast. */
  predicate Enabled(g: Layout, s: Field, a: Action) {
    match a
    case Hears(n, i, _, _) => n in s.nodes && i < |s.log| && (n, i) !in s.heard && s.log[i].last != n
    case Other(n, e) =>
      n in s.nodes &&
      var after := Step(g.setup(n), s.nodes[n], e);
      && after.config.nodeId == n && after.config.parent == g.parent(n)
      && Broadcasts(after.air) == Broadcasts(s.nodes[n].air)
  }

  function Next(g: Layout, s: Field, a: Action): Field
    requires Enabled(g, s, a)
  {
    match a
    case Hears(n, i, now, reply) =>
      var after := Process(g.setup(n), s.nodes[n], s.log[i], now, reply);
      Field(s.nodes[n := after], s.log + NewBroadcasts(s.nodes[n].air, after.air), s.heard + {(n, i)})
    case Other(n, e) => s.(nodes := s.nodes[n := Step(g.setup(n), s.nodes[n], e)])
  }

  function NewBroadcasts(before: seq<Frame>, after: seq<Frame>): seq<Packet> {
    var b := Broadcasts(after);
    if |Broadcasts(before)| <= |b| then b[|Broadcasts(before)|..] else []
  }

  ghost predicate IsRun(g: Layout, s: Field, actions: seq<Action>)
    decreases |actions|
  {
    actions != [] ==> Enabled(g, s, actions[0]) && IsRun(g, Next(g, s, actions[0]), actions[1..])
  }

  ghost function RunOf(g: Layout, s: Field, actions: seq<Action>): Field
    requires IsRun(g, s, actions)
    decreases |actions|
  {
    if actions == [] then s else RunOf(g, Next(g, s, actions[0]), actions[1..])
  }

  function Hearings(actions: seq<Action>): nat {
    if actions == [] then 0 else (if actions[0].Hears? then 1 else 0) + Hearings(actions[1..])
  }

  // ----- The invariant -----

  predicate FromGateway(b: Packet) {
    b.sender == GATEWAY_ADDRESS && b.last == GATEWAY_ADDRESS && b.destination == BROADCAST_ADDRESS
  }

  predicate InPlace(g: Layout, s: Field) {
    forall n :: n in s.nodes ==>
      n != BROADCAST_ADDRESS && s.nodes[n].config.nodeId == n && s.nodes[n].config.parent == g.parent(n)
  }

  /** Transmission j is the copy that a repeater made of one that it heard from its parent. */
  ghost predicate Caused(g: Layout, s: Field, j: nat)
    requires j < |s.log|
  {
    var n := s.log[j].last;
    && n in s.nodes && n != GATEWAY_ADDRESS && g.setup(n).repeater
    && exists i: nat :: i < j && (n, i) in s.heard && s.log[i].last == g.parent(n)
  }

  /** Nobody transmits twice, and everybody transmits the same packet. */
  predicate Distinct(log: seq<Packet>) {
    forall i, j :: 0 <= i < j < |log| ==> log[i].last != log[j].last
  }

  ghost predicate Inv(g: Layout, s: Field, b: Packet) {
    && FromGateway(b) && InPlace(g, s) && GATEWAY_ADDRESS in s.nodes
    && |s.log| > 0 && s.log[0] == b
    && (forall j :: 0 <= j < |s.log| ==> s.log[j] == b.(last := s.log[j].last) && s.log[j].last in s.nodes)
    && (forall j: nat :: 0 < j < |s.log| ==> Caused(g, s, j))
    && (forall p :: p in s.heard ==> p.0 in s.nodes && p.1 < |s.log|)
    && Distinct(s.log)
    && (b.kind == FindParentRequest || b.kind == FindParentResponse ==> |s.log| == 1)
  }

  /** What hearing a transmission adds: at most one copy, in the hearer's name. */
  lemma HearingAdds(g: Layout, s: Field, b: Packet, a: Action)
    requires Inv(g, s, b) && Enabled(g, s, a) && a.Hears?
    ensures var u := g.setup(a.n);
            var copies := if Forwards(u, s.nodes[a.n], s.log[a.i]) then [b.(last := a.n)] else [];
            Next(g, s, a).log == s.log + copies
    ensures Next(g, s, a).heard == s.heard + {(a.n, a.i)}
    ensures InPlace(g, Next(g, s, a)) && Next(g, s, a).nodes.Keys == s.nodes.Keys
  {
    hide Process, Broadcasts, Caused, Distinct;
    var node := s.nodes[a.n];
    var u := g.setup(a.n);
    BroadcastReaction(u, node, s.log[a.i], a.now, a.reply);
    PlaceKept(u, node, s.log[a.i], a.now, a.reply);
  }

  lemma PlaceKept(u: Setup, n: Node, m: Packet, now: nat, reply: byte)
    requires m.destination == BROADCAST_ADDRESS && n.config.nodeId != BROADCAST_ADDRESS
    ensures Process(u, n, m, now, reply).config == n.config.(distance := Process(u, n, m, now, reply).config.distance)
  {
    hide Route, Post;
    var heard := n.(routes := Learned(u, n.config, n.routes, m), sm := n.sm.(received := true));
    PostKeeps(u, heard.(sm := heard.sm.(pong := INVALID_HOPS, pingActive := true)), GATEWAY_ADDRESS, Ping, 1);
    var checked := Checked(u, heard, false, now, reply);
    PostKeeps(u, checked.(sm := checked.sm.(lastCheck := now)), m.sender, FindParentResponse, checked.config.distance);
    PostKeeps(u, heard, m.sender, DiscoverResponse, n.config.parent);
    RouteKeeps(u, heard, m);
    RouteKeeps(u, Post(u, heard, m.sender, DiscoverResponse, n.config.parent), m);
  }

  /** A node that passes on a copy has not done so before. */
  lemma FirstCopy(g: Layout, s: Field, b: Packet, a: Action)
    requires Inv(g, s, b) && Enabled(g, s, a) && a.Hears? && Forwards(g.setup(a.n), s.nodes[a.n], s.log[a.i])
    ensures forall j :: 0 <= j < |s.log| ==> s.log[j].last != a.n
  {
    forall j: nat | j < |s.log|
      ensures s.log[j].last != a.n
    {
      assert j > 0 ==> Caused(g, s, j);
    }
  }

  lemma CausedStays(g: Layout, s: Field, after: Field, j: nat)
    requires j < |s.log| && Caused(g, s, j)
    requires s.nodes.Keys == after.nodes.Keys && s.log <= after.log && s.heard <= after.heard
    ensures Caused(g, after, j)
  {
    var n := s.log[j].last;
    var i: nat :| i < j && (n, i) in s.heard && s.log[i].last == g.parent(n);
    assert (n, i) in after.heard && after.log[i].last == g.parent(n);
  }

  lemma HearsKeepsInv(g: Layout, s: Field, b: Packet, a: Action)
    requires Inv(g, s, b) && Enabled(g, s, a) && a.Hears?
    ensures Inv(g, Next(g, s, a), b)
  {
    hide Next, Process, Broadcasts, InPlace, Enabled;
    var after := Next(g, s, a);
    HearingAdds(g, s, b, a);
    assert InPlace(g, s) && a.n in s.nodes && a.i < |s.log| by { HearerIsThere(g, s, a); }
    forall j: nat | 0 < j < |s.log|
      ensures Caused(g, after, j)
    {
      assert Caused(g, s, j);
      hide Caused;
      CausedStays(g, s, after, j);
    }
    if Forwards(g.setup(a.n), s.nodes[a.n], s.log[a.i]) {
      FirstCopy(g, s, b, a);
      CopyIsCaused(g, s, after, a);
    }
  }

  lemma HearerIsThere(g: Layout, s: Field, a: Action)
    requires Enabled(g, s, a) && a.Hears?
    ensures a.n in s.nodes && a.i < |s.log|
  {
  }

  lemma CopyIsCaused(g: Layout, s: Field, after: Field, a: Action)
    requires InPlace(g, s) && a.Hears? && a.n in s.nodes && a.i < |s.log| && s.log[a.i].sender == GATEWAY_ADDRESS
    requires Forwards(g.setup(a.n), s.nodes[a.n], s.log[a.i])
    requires |after.log| == |s.log| + 1 && s.log <= after.log && after.log[|s.log|].last == a.n
    requires after.heard == s.heard + {(a.n, a.i)} && after.nodes.Keys == s.nodes.Keys
    ensures Caused(g, after, |s.log|)
  {
    assert (a.n, a.i) in after.heard && after.log[a.i].last == g.parent(a.n);
  }

  lemma OtherKeepsInv(g: Layout, s: Field, b: Packet, a: Action)
    requires Inv(g, s, b) && Enabled(g, s, a) && a.Other?
    ensures Inv(g, Next(g, s, a), b) && Next(g, s, a).nodes.Keys == s.nodes.Keys
  {
    hide Step, Broadcasts;
    var after := Next(g, s, a);
    assert after.log == s.log && after.heard == s.heard && InPlace(g, after);
    forall j: nat | 0 < j < |s.log|
      ensures Caused(g, after, j)
    {
      assert Caused(g, s, j);
      hide Caused, Next;
      CausedStays(g, s, after, j);
    }
    hide Next, InPlace, Caused;
  }

  lemma NextKeepsInv(g: Layout, s: Field, b: Packet, a: Action)
    requires Inv(g, s, b) && Enabled(g, s, a)
    ensures Inv(g, Next(g, s, a), b)
    ensures |Next(g, s, a).heard| == |s.heard| + if a.Hears? then 1 else 0
    ensures Next(g, s, a).nodes.Keys == s.nodes.Keys
  {
    if a.Hears? { HearsKeepsInv(g, s, b, a); } else { OtherKeepsInv(g, s, b, a); }
    hide Inv, Process, Step, Broadcasts, NewBroadcasts;
  }

  // ----- Whole runs -----

  lemma {:induction false} RunKeepsInv(g: Layout, s: Field, b: Packet, actions: seq<Action>)
    requires Inv(g, s, b) && IsRun(g, s, actions)
    ensures var end := RunOf(g, s, actions);
            Inv(g, end, b) && end.nodes.Keys == s.nodes.Keys && |end.heard| == |s.heard| + Hearings(actions)
    decreases |actions|
  {
    if actions != [] {
      hide Inv, Enabled, Next;
      NextKeepsInv(g, s, b, actions[0]);
      RunKeepsInv(g, Next(g, s, actions[0]), b, actions[1..]);
    }
  }

  function Transmitters(log: seq<Packet>): (r: set<byte>) {
    set j | 0 <= j < |log| :: log[j].last
  }

  lemma {:induction false} OneTransmissionEach(log: seq<Packet>)
    requires Distinct(log)
    ensures |Transmitters(log)| == |log|
    decreases |log|
  {
    if log != [] {
      var k := |log| - 1;
      OneTransmissionEach(log[..k]);
      assert Transmitters(log) == Transmitters(log[..k]) + {log[k].last};
    }
  }

  lemma {:induction false} SubsetIsSmaller<T>(a: set<T>, b: set<T>)
    requires a <= b
    ensures |a| <= |b|
  {
    if a != {} {
      var x :| x in a;
      SubsetIsSmaller(a - {x}, b - {x});
    }
  }

  lemma {:induction false} OnePairEach(pairs: set<(byte, nat)>, names: set<byte>, i: nat)
    requires forall p :: p in pairs ==> p.0 in names && p.1 == i
    ensures |pairs| <= |names|
    decreases |names|
  {
    if pairs != {} {
      var p :| p in pairs;
      OnePairEach(pairs - {p}, names - {p.0}, i);
    }
  }

  lemma {:induction false} PairsBound(pairs: set<(byte, nat)>, names: set<byte>, k: nat)
    requires forall p :: p in pairs ==> p.0 in names && p.1 < k
    ensures |pairs| <= |names| * k
    decreases k
  {
    if k == 0 {
      assert pairs == {};
    } else {
      var top := set p | p in pairs && p.1 == k - 1;
      OnePairEach(top, names, k - 1);
      PairsBound(pairs - top, names, k - 1);
      assert |pairs| == |pairs - top| + |top|;
    }
  }

  lemma FewTransmissions(g: Layout, s: Field, b: Packet)
    requires Inv(g, s, b)
    ensures |s.log| <= |s.nodes.Keys| && |s.heard| <= |s.nodes.Keys| * |s.nodes.Keys|
  {
    hide Caused, InPlace;
    var names := s.nodes.Keys;
    OneTransmissionEach(s.log);
    SubsetIsSmaller(Transmitters(s.log), names);
    PairsBound(s.heard, names, |s.log|);
    Grows(|names|, |s.log|);
  }

  lemma OnlyCopies(g: Layout, s: Field, b: Packet, j: nat)
    requires Inv(g, s, b) && 0 < j < |s.log|
    ensures s.log[j] == b.(last := s.log[j].last)
    ensures s.log[j].last != GATEWAY_ADDRESS && g.setup(s.log[j].last).repeater
  {
    assert Caused(g, s, j);
  }

  lemma Grows(n: nat, k: nat)
    requires k <= n
    ensures n * k <= n * n
  {
  }

  /** In every run after a broadcast of the gateway: nobody transmits it twice, the gateway never again, and
      every other transmitter is a repeater, with an unchanged copy. So it is transmitted at most once per
      node, and after as many hearings as there are pairs of nodes, nothing is left to hear. */
  lemma BroadcastEnds(g: Layout, s: Field, b: Packet, actions: seq<Action>)
    requires InPlace(g, s) && GATEWAY_ADDRESS in s.nodes && FromGateway(b)
    requires s.log == [b] && s.heard == {} && IsRun(g, s, actions)
    ensures var log := RunOf(g, s, actions).log;
            var n := |s.nodes.Keys|;
            && Distinct(log) && |log| <= n && Hearings(actions) <= n * n
            && (forall j :: 0 < j < |log| ==>
                  log[j] == b.(last := log[j].last) && log[j].last != GATEWAY_ADDRESS && g.setup(log[j].last).repeater)
            && (b.kind == FindParentRequest ==> |log| == 1)
  {
    RunKeepsInv(g, s, b, actions);
    var end := RunOf(g, s, actions);
    FewTransmissions(g, end, b);
    forall j: nat | 0 < j < |end.log|
      ensures end.log[j] == b.(last := end.log[j].last)
      ensures end.log[j].last != GATEWAY_ADDRESS && g.setup(end.log[j].last).repeater
    {
      OnlyCopies(g, end, b, j);
    }
  }
}
