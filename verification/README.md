# A verified model of the MySensors node library and the Arduino libraries beside it

The project models the parts of the repository whose behaviour is not plain from reading one function, and
proves what they are for. Each file holds one component: a module with the specification (values, functions and
lemmas), and, where the original changes state step by step, a module with a class or methods that do the same
steps and are proved to compute the specification.

| file | component |
|---|---|
| `Words.dfy`, `ByteBits.dfy` | the 8, 16 and 32 bits of the boards; single bits under a shifted mask |
| `OneWire.dfy` | 1-Wire search over a wired-AND bus |
| `Crc.dfy` | CRC-8 and CRC-16 as loops, tables and parity tricks |
| `Transport.dfy` | the transport of a node: state machine, routing, parent search, relaying |
| `TransportRuns.dfy` | how a node comes up, and when it leaves a state for which other |
| `Links.dfy` | uplink checks, answers to requests for a parent, and what the routing table holds |
| `Network.dfy` | unicast traffic of many such nodes on a parent tree |
| `Delivery.dfy` | messages from any node of the tree to any other, and their acknowledgements |
| `Broadcast.dfy` | a gateway broadcast spreading over nodes with arbitrary radio ranges |
| `Time.dfy` | calendar, DS3232 clock chip, system clock |
| `TimeAlarms.dfy` | the alarm scheduler |
| `Rs485.dfy` | framing on a shared RS485 line |
| `Message.dfy`, `Signing.dfy` | the message header and the signing handshake |
| `Ota.dfy` | the firmware update over the air, and the flash it writes to |
| `RcSwitch.dfy` | the remote-control pulse encoder, decoder and interrupt handler |
| `GatewayProtocol.dfy` | the text protocol between gateway and controller |
| `Circle.dfy` | midpoint circles and discs |
| `Bounce.dfy` | the button debouncer |

How the outside world enters: the 1-Wire bus is a set of 64-bit codes and a set of devices that still listen; a
radio is a sequence of frames sent and a function that says which were acknowledged; clocks, pin levels, random
bytes, flash readiness and the outcome of hardware calls are parameters; flash, whose programming only clears bits,
EEPROM and chip registers are arrays or records; SHA-256 and HMAC are any functions into 32 bytes. Integer widths are written out wherever a value can
reach them.

Where a promise turned out not to hold of the code, the model keeps the code, and a lemma gives the exact condition
under which the promise is kept:

- A device with family byte zero has the least code and makes every enumeration empty (`OneWireSearch.Enumerate`).
- The clock chip keeps times from 2000 on and no others, although `set` accepts them (`Rtc.SetThenGet`).
- `write` accepts alarm values longer than the period, and such an alarm is not due at its next occurrence
  (`AlarmSpec.UpdatedIsLeastIff`, `AlarmSpec.LongValueIsLate`).
- `getNextTrigger` counts disabled alarms: its result is that of the next alarm exactly if no disabled one has an
  earlier trigger left, and the promised 0 of an idle scheduler exactly if no slot in use announces a trigger
  (`AlarmSpec.NextOrNoneIff`, `AlarmSpec.DisabledIsCounted`, `AlarmSpec.DisabledAlone`).
- A frame that follows noise on RS485 arrives exactly if the bytes left in the window start no frame inside its
  header (`Rs485Spec.FrameArrivesIff`, `Rs485Spec.StaleWindowLosesFrame`).
- An offer starts an update exactly if it differs from the offer before it; so one that was given up is not taken up
  again when it is offered again (`OtaSpec.OfferStartsIff`, `OtaSpec.GivenUpForGood`).
- The update erases only the lower 32 KiB of the flash, and programming only clears bits: an image above 2047 blocks
  is held exactly if every cell above has the 1 bits of its byte already (`FlashSpec.HeldIff`,
  `FlashSpec.UpperHalfIsLost`, `Ota.Updater.ProcessBlock`).
- A remote-control code is received in any state if it is sent four times, in protocol 6 three times; in the others
  three times, after a silence unlike their gap, are received exactly if one gap has been counted by its end
  (`RcSwitchSpec.TransmissionIsReceived`, `RcSwitchSpec.ThreeRepetitionsIff`, `RcSwitchSpec.FreshMissesThree`).
- The remote-control code of all ones in protocol 6 is received as zero (`RcSwitchSpec.TransmissionIsReceived`).
- Protocol 4 is never received within one transmission, because its gap is below the separation limit
  (`RcSwitchSpec.Protocol4OnTheLine`); after a longer gap its codes are read right exactly if that gap lasts from 4390
  to 14724 microseconds, and four sends over an idle line with such pauses are received, three, after a silence unlike
  them, exactly if one gap has been counted by its end (`RcSwitchPauses.PausedCodeIsReadIff`,
  `RcSwitchPauses.PausedCodeIsReceived`, `RcSwitchPauses.ThreeSendsIff`).
- A repeater sends a message whose route it does not know up, unless its `last` field is the parent: then it goes
  straight to its destination. So a repeater acknowledges what it hears from above over the tree exactly if the sender
  is the gateway or its own parent (`Delivery.LeavesOverTreeIff`, `Delivery.AckComesBack`). The `last` field of a
  message that has not been sent yet is 0, so that a repeater next to the gateway takes its own for such.
- Circles come out right exactly if the decision variable fits the signed integers wherever its sign is read
  (`CircleSpec.OctantIsArcIff`, `CircleSpec.WideCircleIsWrong`).
- Unsigned 32-bit payloads survive the text protocol exactly below 2^31 (`GatewayProtocolSpec.NumbersReturn`).
- Of a trailing CR LF only the LF is removed: a line end is left exactly if the payload had two
  (`GatewayProtocolSpec.LineEndIsLeftIff`, `GatewayProtocolSpec.CrLfKeepsCr`).

`target_search` promises a device of the family, and that is what it finds (`SearchSpec.TargetFindsFamily`). That it
is the first one holds exactly if no second device differs from the first in the last bit only
(`SearchSpec.TargetFindsLeastIff`), which the CRC in the last byte of every real code rules out
(`RomCrc.TargetFindsFirst`).

## Model

| member | source | states |
|---|---|---|
| OneWireSearch.Enumerate | Arduino/libraries/OneWire/OneWire.cpp:300-458 | After `reset_search`, calling `search` until it fails yields every device on the bus once, in bit order, and leaves the search fresh; with a zero family byte among the devices it yields none of them. |
| OneWireSearch.OneWire.ResetSearch | Arduino/libraries/OneWire/OneWire.cpp:300-313 | The search state is that of a first search. |
| OneWireSearch.OneWire.TargetSearch | Arduino/libraries/OneWire/OneWire.cpp:315-324 | The code becomes the family byte and zeros, with the last discrepancy at bit 64, so that the next pass prefers the family. |
| OneWireSearch.OneWire.Search | Arduino/libraries/OneWire/OneWire.cpp:342-458 | A call finds the device reached by the choices of the previous code and discrepancy, or fails and resets, with the codes copied out. |
| OneWireSearch.OneWire.Pass | Arduino/libraries/OneWire/OneWire.cpp:373-445 | The 64-bit walk: with devices on the bus it ends at the one device that follows every choice, with the last discrepancy the last zero branch. |
| OneWireSearch.Bus.Reset | Arduino/libraries/OneWire/OneWire.cpp:137-159 | Presence exactly if there is a device; all listen again. |
| OneWireSearch.Bus.ReadBit | Arduino/libraries/OneWire/OneWire.cpp:199-214 | The line is the AND of what all listening devices send: their bit, then its complement. |
| OneWireSearch.Bus.WriteBit | Arduino/libraries/OneWire/OneWire.cpp:171-193 | Exactly the devices with that bit keep listening. |
| OneWireSearch.OneWire.Conclude | Arduino/libraries/OneWire/OneWire.cpp:448-457 | A pass without result, or with a zero first byte, makes the next search a first one. |
| OneWireSearch.OneWire.NextRomBit | Arduino/libraries/OneWire/OneWire.cpp:419-429 | Byte number and mask move to the next of the 64 bits. |
| SearchSpec.FollowsUnique | Arduino/libraries/OneWire/OneWire.cpp:383-418 | The choices at the forks determine one device. |
| SearchSpec.FreshFindsLeast | Arduino/libraries/OneWire/OneWire.cpp:383-418 | A first pass ends at the least code. |
| SearchSpec.NextIsGreater | Arduino/libraries/OneWire/OneWire.cpp:383-438 | A further pass ends at a greater code than the last. |
| SearchSpec.NextIsImmediate | Arduino/libraries/OneWire/OneWire.cpp:383-438 | ... and at the next one: no device lies between. |
| SearchSpec.LastIsGreatest | Arduino/libraries/OneWire/OneWire.cpp:434-445 | When the last discrepancy is zero, no device with a greater code is left. |
| SearchSpec.ZeroFamilyFirst | Arduino/libraries/OneWire/OneWire.cpp:448-457 | A device with family byte zero is found before all others, so that it hides them. |
| SearchSpec.TargetFindsFamily | Arduino/libraries/OneWire/OneWire.cpp:315-324 | After `target_search` a pass stays in the family if the family has a member, and finds its least but for the last bit. |
| SearchSpec.TargetFindsLeastIff | Arduino/libraries/OneWire/OneWire.cpp:315-324 | On the bus: it finds the family's first member exactly if no second device differs from that one in the last bit only, with a 1 there. |
| SearchSpec.TargetSkipsTwin | Arduino/libraries/OneWire/OneWire.cpp:315-324 | A bus on which it passes over the first member. |
| RomCrc.GenuineDiffer | Arduino/libraries/OneWire/OneWire.cpp:462-523 | Two codes that end in the CRC-8 of their first seven bytes, and agree in these, are the same. |
| RomCrc.TargetFindsFirst | Arduino/libraries/OneWire/OneWire.cpp:315-324 | Among devices with such codes `target_search` always leads to the first member of the family, if there is one. |
| RomCrc.TwinsAreNotGenuine | Arduino/libraries/OneWire/OneWire.cpp:462-523 | Of two codes that differ in the last bit only, one at most ends in its CRC-8. |
| ByteBits.WrittenBit | Arduino/libraries/OneWire/OneWire.cpp:409-414 | Setting or clearing under the moving mask changes that bit of the byte and no other. |
| Crc.Crc8Bitwise | Arduino/libraries/OneWire/OneWire.cpp:509-523 | The loop version computes the serial CRC-8. |
| Crc.Crc8Byte | Arduino/libraries/OneWire/OneWire.cpp:513-521 | The inner loop is eight serial steps. |
| Crc.ByteIsLookup | Arduino/libraries/OneWire/OneWire.cpp:466-523 | Eight serial steps over a byte are one look-up in the printed table. |
| Crc.Crc8ByTable | Arduino/libraries/OneWire/OneWire.cpp:495-503 | The table version computes the same CRC-8 for messages of any length. |
| Crc.ResidueIsZero | Arduino/libraries/OneWire/OneWire.cpp:462-523 | A message followed by its CRC-8 has CRC-8 zero. |
| Crc.Crc8DetectsByte | Arduino/libraries/OneWire/OneWire.cpp:462-523 | Changing any one byte of a message changes its CRC-8. |
| Crc.FirmwareCrc | Arduino/libraries/MySensors/core/MyOTAFirmwareUpdate.cpp:165-182 | The nested loops compute the serial CRC-16. |
| Crc.FirmwareByte | Arduino/libraries/MySensors/core/MyOTAFirmwareUpdate.cpp:170-177 | The inner loop is eight serial steps of the CRC-16. |
| Crc.ByteByParity | Arduino/libraries/OneWire/OneWire.cpp:533-554 | The parity trick for one byte equals eight serial steps. |
| Crc.ParityByte | Arduino/libraries/OneWire/OneWire.cpp:539-552 | One pass of the loop body over the 16-bit register is the parity step that equals eight serial steps. |
| Crc.Crc16ByParity | Arduino/libraries/OneWire/OneWire.cpp:533-554 | The loop computes the fold of the parity step. |
| Crc.SameCrc16 | Arduino/libraries/OneWire/OneWire.cpp:533-554 | Both libraries compute the same CRC-16 for messages of any length. |
| Crc.CheckCrc16 | Arduino/libraries/OneWire/OneWire.cpp:527-531 | The check accepts exactly the two inverted bytes of the CRC, low byte first. |
| Crc.InvertedResidue | Arduino/libraries/OneWire/OneWire.cpp:527-554 | A message followed by its inverted CRC-16 leaves the same residue, whatever the message. |
| TransportSpec.ReachableIsConsistent | Arduino/libraries/MySensors/core/MyTransport.cpp:60-348 | In every state that a gateway, repeater or sensor node can reach from power-on: the uplink flag is set exactly in the ready state; past the search there is a parent and the search is off; a ready node with uplink check knows its distance; retries stay below 4, failures below 8, transmission failures below 16; an open ping is found only in the uplink or failure state. |
| TransportSpec.RunKeepsConsistent | Arduino/libraries/MySensors/core/MyTransport.cpp:60-455 | Any sequence of updates, messages, sanity checks, sends and pings keeps that invariant. |
| TransportSpec.SwitchKeepsConsistent | Arduino/libraries/MySensors/core/MyTransport.cpp:331-343 | Which transitions may be taken from where for the invariant to hold. |
| TransportSpec.ParentChoice | Arduino/libraries/MySensors/core/MyTransport.cpp:677-703 | Over any run of messages in one search: the preferred parent's first valid report wins; without one, the first of the senders with the least distance below 254, whose distance plus one is taken; without those, nobody. |
| TransportSpec.NearestWins | Arduino/libraries/MySensors/core/MyTransport.cpp:681-697 | The same against what the node already has. |
| TransportSpec.PreferredWins | Arduino/libraries/MySensors/core/MyTransport.cpp:685-693 | After the preferred parent's report nothing is changed. |
| TransportSpec.SearchStarts | Arduino/libraries/MySensors/core/MyTransport.cpp:123-144 | Entering the search forgets parent and distance and broadcasts exactly one request. |
| TransportSpec.QuietWhileSearching | Arduino/libraries/MySensors/core/MyTransport.cpp:465-469 | While a parent is searched, whatever happens, only broadcasts go out. |
| TransportSpec.UplinkStoresHops | Arduino/libraries/MySensors/core/MyTransport.cpp:228-240 | A pong heard during the uplink check makes the node ready, with the pong's hops as its distance. |
| TransportSpec.UnicastReaction | Arduino/libraries/MySensors/core/MyTransport.cpp:625-725 | What a node that looks for no parent learns, sends and remembers on hearing any unicast message, ready or not, id responses included. |
| TransportSpec.TickPastSearch | Arduino/libraries/MySensors/core/MyTransport.cpp:194-258 | A tick that leaves a node past the search sends nothing but the ping of its uplink check, and the hops that the check heard become its distance. |
| TransportSpec.BroadcastReaction | Arduino/libraries/MySensors/core/MyTransport.cpp:748-797 | Which broadcasts a broadcast leads to, whoever sent it: an answer, if the sender has no id yet, and its copy, only in a ready repeater that hears it from its parent; parent requests and responses are never forwarded. |
| TransportSpec.NamelessRequestIsAnswered | Arduino/libraries/MySensors/core/MyTransport.cpp:755-775 | A ready repeater answers the parent request of a node without an id to everybody, exactly if its uplink works. |
| TransportRuns.NodeComesUp | Arduino/libraries/MySensors/core/MyTransport.cpp:60-258 | One run from power-on: after the first tick and any messages, a tick more than two seconds later takes the parent that the reports choose, the next one asks the gateway, and the one after the pong makes the node ready, with that parent, its id and the hops of the pong. |
| TransportRuns.FirstTick | Arduino/libraries/MySensors/core/MyTransport.cpp:83-144 | After power-on and one tick a node that is no gateway searches under its own or its stored id, has asked everybody once, and knows no parent. |
| TransportRuns.SearchEndsInChoice | Arduino/libraries/MySensors/core/MyTransport.cpp:146-152 | A search that is over, with a parent chosen by the reports, goes on to the search for an id with that parent and its distance plus one. |
| TransportRuns.IdThenUp | Arduino/libraries/MySensors/core/MyTransport.cpp:182-240 | From there a tick, the pong and a tick make a node with an id ready, with the hops of the pong as its distance. |
| TransportRuns.NodeGetsId | Arduino/libraries/MySensors/core/MyTransport.cpp:442-458 | A node without an id takes the one it is given, stores it, and comes up under it with its parent kept. |
| TransportRuns.SearchGivesUp | Arduino/libraries/MySensors/core/MyTransport.cpp:146-179 | Without a report the search asks everybody four times in all, and the next tick after two seconds is a failure. |
| TransportRuns.TickInSearch | Arduino/libraries/MySensors/core/MyTransport.cpp:146-179 | When a tick leaves the search, and for where: after two seconds or the preferred report, with a parent for the search for an id, parent and distance kept and the search off; without one it starts again three times and then fails; a static parent at once. |
| TransportRuns.TickInIdSearch | Arduino/libraries/MySensors/core/MyTransport.cpp:194-214 | The search for an id: with an id at once to the uplink check, without one three more requests two seconds apart, then failure. |
| TransportRuns.TickInUplinkCheck | Arduino/libraries/MySensors/core/MyTransport.cpp:228-258 | The uplink check: ready with the hops as distance, or three more pings two seconds apart, then a new search; disabled, ready at once. |
| TransportRuns.TickWhenReady | Arduino/libraries/MySensors/core/MyTransport.cpp:275-304 | Ready is left exactly for a new search, and exactly if more than ten, or five, transmissions to the parent in a row have failed; a gateway stays, and discovers its network every 20 minutes. |
| TransportRuns.TickInFailure | Arduino/libraries/MySensors/core/MyTransport.cpp:322-329 | A failure lasts ten seconds, or a minute after seven failures, and ends in a restart from the stored configuration. |
| TransportRuns.TickAfterStart | Arduino/libraries/MySensors/core/MyTransport.cpp:83-120 | The first tick of gateways, of nodes with and without an id, static or stored, and of nodes without a radio. |
| TransportRuns.OnlyTicksMove | Arduino/libraries/MySensors/core/MyTransport.cpp:340-440 | Nothing else changes the state: no message, transmission, ping or check, but for a failed sanity check of an active transport. |
| TransportRuns.TransmissionsCount | Arduino/libraries/MySensors/core/MyTransport.cpp:500-517 | A transmission to the parent counts as failed, or forgets the failures; others, and those of the gateway, leave the counter. |
| TransportRuns.LossesAreCounted | Arduino/libraries/MySensors/core/MyTransport.cpp:500-517 | Messages to the parent that are lost in a row are counted one by one. |
| TransportRuns.LostUplinkIsLeft | Arduino/libraries/MySensors/core/MyTransport.cpp:275-304 | After so many of them in a row the next tick of a node that has just come up starts a new search exactly beyond the limit of ten or five. |
| Links.CheckHolds | Arduino/libraries/MySensors/core/MyTransport.cpp:416-440 | A check pings the gateway over the parent, its answer is the new distance, and for ten seconds no other check pings; afterwards it does. |
| Links.PingGoesOut | Arduino/libraries/MySensors/core/MyTransport.cpp:547-569 | A ping goes out to its target with one hop, and its reply is the result; a node is no hops from itself, without a ping. |
| Links.GatewayIsThere | Arduino/libraries/MySensors/core/MyTransport.cpp:416-440 | The uplink of the gateway is fine without a ping. |
| Links.ParentRequestIsAnswered | Arduino/libraries/MySensors/core/MyTransport.cpp:755-775 | Everything a ready repeater sends on hearing a parent request of any node but its parent: the ping of its check, if the last is ten seconds old, and its answer with the checked distance, exactly if the uplink works. |
| Links.NeighbourIsTaken | Arduino/libraries/MySensors/core/MyTransport.cpp:677-775 | Two nodes: the request of a searching node, heard by a ready repeater, is answered to it, with an id or without, and the answer makes that repeater its parent at one hop more. |
| Links.DiscoveryIsAnswered | Arduino/libraries/MySensors/core/MyTransport.cpp:776-797 | A discovery heard from the parent is answered with that parent, and passed on by a ready repeater. |
| Links.RoutesAreLatest | Arduino/libraries/MySensors/core/MyTransport.cpp:625-639 | Over any messages: the table holds for every node the neighbour over which the last of its messages came that did not come from the parent, and its old entry if there was none. |
| Links.ForgottenUntilHeard | Arduino/libraries/MySensors/core/MyTransport.cpp:925-932 | After the table is cleared, a route is unknown until its node is heard. |
| NodeTransport.Transport.constructor | Arduino/libraries/MySensors/core/MyTransport.cpp:30-46 | Power-on: all statics zero, the stored configuration and the table kept, nothing sent. |
| NodeTransport.Transport.SendWrite | Arduino/libraries/MySensors/core/MyTransport.cpp:877-904 | The frame goes out with `last` set; a broadcast always counts as sent. |
| NodeTransport.Transport.RouteMessage | Arduino/libraries/MySensors/core/MyTransport.cpp:460-517 | To the gateway always over the parent; else along the learned route, or up if the message comes from below, or straight to its destination; nothing but broadcasts during a search; failures towards the parent are counted in four bits. |
| NodeTransport.Transport.SendRoute | Arduino/libraries/MySensors/core/MyTransport.cpp:519-529 | Nothing is sent unless the transport is ready, and the result tells whether a frame went out and counts as sent. |
| NodeTransport.Transport.RouteBuffer | Arduino/libraries/MySensors/core/MyTransport.cpp:460-517 | A message in the outgoing buffer is routed, and leaves its `last` field behind for the next. |
| NodeTransport.Transport.BuildAndRoute | Arduino/libraries/MySensors/core/MyTransport.cpp:712-713 | An internal message is built from this node and routed. |
| NodeTransport.Transport.SetRoute | Arduino/libraries/MySensors/core/MyTransport.cpp:950-957 | One entry of the table changes. |
| NodeTransport.Transport.SwitchSM | Arduino/libraries/MySensors/core/MyTransport.cpp:331-343 | Retry counting and the transition of every state. |
| NodeTransport.Transport.ParentTransition | Arduino/libraries/MySensors/core/MyTransport.cpp:123-144 | Static parent, or a fresh search. |
| NodeTransport.Transport.InitTransition | Arduino/libraries/MySensors/core/MyTransport.cpp:60-81 | Inactive, no open ping, and the configuration of the EEPROM. |
| NodeTransport.Transport.UplinkTransition | Arduino/libraries/MySensors/core/MyTransport.cpp:216-226 | A ping to the gateway is open, unless the check is disabled. |
| NodeTransport.Transport.FailureTransition | Arduino/libraries/MySensors/core/MyTransport.cpp:307-320 | Failures are counted up to seven; no uplink and inactive. |
| NodeTransport.Transport.UpdateSM | Arduino/libraries/MySensors/core/MyTransport.cpp:350-355 | The update of the current state. |
| NodeTransport.Transport.InitUpdate | Arduino/libraries/MySensors/core/MyTransport.cpp:83-120 | Gateway, static id, stored id, no id, and radio failure. |
| NodeTransport.Transport.ParentUpdate | Arduino/libraries/MySensors/core/MyTransport.cpp:147-179 | Proceed, retry or fail. |
| NodeTransport.Transport.IdUpdate | Arduino/libraries/MySensors/core/MyTransport.cpp:194-214 | Proceed, retry or fail. |
| NodeTransport.Transport.UplinkUpdate | Arduino/libraries/MySensors/core/MyTransport.cpp:228-258 | Become ready with the hops as distance, retry, or search again. |
| NodeTransport.Transport.ReadyUpdate | Arduino/libraries/MySensors/core/MyTransport.cpp:275-304 | Network discovery of a gateway; a new search after too many failed transmissions. |
| NodeTransport.Transport.FailureUpdate | Arduino/libraries/MySensors/core/MyTransport.cpp:322-329 | Back to the start after the timeout, the longer one after seven failures. |
| NodeTransport.Transport.AssignNodeID | Arduino/libraries/MySensors/core/MyTransport.cpp:442-458 | An id other than 0 and 255 is taken and stored. |
| NodeTransport.Transport.PingStation | Arduino/libraries/MySensors/core/MyTransport.cpp:547-569 | The reply, 0 for itself, 255 if a ping is open; no ping is left open. |
| NodeTransport.Transport.CheckLink | Arduino/libraries/MySensors/core/MyTransport.cpp:416-440 | Flood control, and the distance updated from the ping. |
| NodeTransport.Transport.ProcessMessage | Arduino/libraries/MySensors/core/MyTransport.cpp:576-838 | The whole new state after a message, for messages to the node, to all, and to others. |
| NodeTransport.Transport.ProcessAddressed | Arduino/libraries/MySensors/core/MyTransport.cpp:645-747 | A message to this node: acknowledged if asked for and ready, handled unless it is an acknowledgement. |
| NodeTransport.Transport.HandleInternal | Arduino/libraries/MySensors/core/MyTransport.cpp:664-725 | Id and parent responses, pings and pongs. |
| NodeTransport.Transport.ProcessBroadcast | Arduino/libraries/MySensors/core/MyTransport.cpp:748-797 | Parent requests are answered after an uplink check; discovery from the parent is answered; what comes from the parent is forwarded. |
| NodeTransport.Transport.Relay | Arduino/libraries/MySensors/core/MyTransport.cpp:816-834 | Ready repeaters relay, and count the hops of pings and pongs. |
| NodeTransport.Transport.InvokeSanityCheck | Arduino/libraries/MySensors/core/MyTransport.cpp:840-848 | A failed check leads to the failure state. |
| NodeTransport.Transport.ClearRoutingTable | Arduino/libraries/MySensors/core/MyTransport.cpp:925-932 | Every route is unknown. |
| Network.LearnedRoutesAreRight | Arduino/libraries/MySensors/core/MyTransport.cpp:625-639 | On any fixed tree, in every run of unicast traffic with loss, repetition and reordering, of nodes that come up and nodes that are ready, with tables cleared at any time: a learned route for s names the child on the path to s. |
| Network.HopGoesRight | Arduino/libraries/MySensors/core/MyTransport.cpp:460-498 | The next hop goes up only with packets from below, and down only towards the destination. |
| Network.AnswersAreGood | Arduino/libraries/MySensors/core/MyTransport.cpp:625-725 | Everything sent in reaction to a good frame is good, by ready nodes and others: acknowledgements, pongs and relayed packets. |
| Network.RunKeepsInv | Arduino/libraries/MySensors/core/MyTransport.cpp:460-838 | The invariant over all nodes, with and without an uplink, and all frames ever sent; and who is ready stays ready. |
| Network.PongCarriesDepth | Arduino/libraries/MySensors/core/MyTransport.cpp:816-833 | A gateway's pong is heard only on the path to its destination and carries the depth of where it is heard, up to 254, so never 255. |
| Network.PingCarriesDepth | Arduino/libraries/MySensors/core/MyTransport.cpp:816-833 | An uplink ping reaches the gateway with the depth of its sender, up to 254. |
| Network.UplinkCheckStoresDepth | Arduino/libraries/MySensors/core/MyTransport.cpp:228-240 | In every run, whenever a node becomes ready by its uplink check, its distance is its true depth, up to 254. |
| Network.UplinkCheckIsAnswered | Arduino/libraries/MySensors/core/MyTransport.cpp:706-725 | From every reachable state, if each hop of a ready node's ping from depth k is heard, the pong returns over the same nodes after 2k - 1 deliveries with payload k. |
| Network.NodeBecomesReady | Arduino/libraries/MySensors/core/MyTransport.cpp:216-258 | From every reachable state: a node with an id below ready repeaters, that ticks, whose ping and pong are heard at each hop, and that ticks again, is ready after 2k + 2 steps with its depth k, up to 254, for its distance. |
| Network.ChainOfThree | Arduino/libraries/MySensors/core/MyTransport.cpp:706-725 | The statements are about something: a chain of gateway, repeater and a node without an uplink, and a run of six steps at whose end that node is ready at distance two. |
| Network.ClimbOne | Arduino/libraries/MySensors/core/MyTransport.cpp:625-639 | A ping on its way up leaves the route back in every node it passes. |
| Delivery.MessageArrives | Arduino/libraries/MySensors/core/MyTransport.cpp:460-498 | From every reachable state of the tree: a message from any ready node to any other arrives after as many hops as they are apart, over ready nodes, if those from where their ways meet down know the destination and its sender sends it over the tree; and then they know the way back. |
| Delivery.AckComesBack | Arduino/libraries/MySensors/core/MyTransport.cpp:650-662 | Its acknowledgement comes back over as many hops, without any route known before, exactly if it is sent over the tree; else it is sent straight to a node that is no neighbour. |
| Delivery.LeavesOverTreeIff | Arduino/libraries/MySensors/core/MyTransport.cpp:474-498 | A message leaves a node over an edge of the tree exactly if its destination hangs below or is next door, the node is no repeater, or the message has not come from above. |
| Delivery.Climbs | Arduino/libraries/MySensors/core/MyTransport.cpp:474-498 | On its way up a message leaves the route back in every node. |
| Delivery.Descends | Arduino/libraries/MySensors/core/MyTransport.cpp:474-498 | On its way down it follows the learned routes. |
| Trees.TowardIsUnique | Arduino/libraries/MySensors/core/MyTransport.cpp:460-498 | Of the children of a node only one leads to s. |
| Broadcast.BroadcastEnds | Arduino/libraries/MySensors/core/MyTransport.cpp:748-797 | For any parents and any radio ranges: nobody transmits a gateway broadcast twice, the gateway never again, everybody else an unchanged copy; at most one transmission per node, and a bounded number of hearings. |
| Broadcast.FirstCopy | Arduino/libraries/MySensors/core/MyTransport.cpp:789-797 | A repeater that forwards has not forwarded before. |
| Calendar.BreakTime | Arduino/libraries/Time/Time.cpp:151-202 | Every 32-bit time is broken into the valid date whose seconds it is, with its weekday. |
| Calendar.MakeTime | Arduino/libraries/Time/Time.cpp:204-233 | The seconds of the date, in 32 bits. |
| Calendar.SecondsOfYears | Arduino/libraries/Time/Time.cpp:212-218 | The loop over the years sums their days, in 32 bits. |
| Calendar.AddTimeOfDay | Arduino/libraries/Time/Time.cpp:228-231 | Day, hour, minute and second are added, in 32 bits. |
| Calendar.BreakThenMake | Arduino/libraries/Time/Time.cpp:151-233 | Every 32-bit time survives breaking and making. |
| Calendar.MakeThenBreak | Arduino/libraries/Time/Time.cpp:151-233 | Every valid date that fits survives making and breaking, with its weekday corrected. |
| Calendar.SecondsArePosix | Arduino/libraries/Time/Time.cpp:204-233 | The loops' sum is the closed form of section 4.16 of POSIX.1-2017, Seconds Since the Epoch. |
| Calendar.SecondsInjective | Arduino/libraries/Time/Time.cpp:151-233 | Different valid dates have different seconds. |
| Calendar.DatesAreGregorian | Arduino/libraries/Time/Time.cpp:151-233 | The seconds and the weekday of every valid date are those of the Gregorian calendar, counted from the first of March of the year 0. |
| Calendar.DaysOfMonths | Arduino/libraries/Time/Time.cpp:184-226 | The month lengths in one formula. |
| Calendar.YearOf | Arduino/libraries/Time/Time.cpp:170-178 | The year loop finds the year a day falls into. |
| Calendar.MonthOf | Arduino/libraries/Time/Time.cpp:184-201 | The month loop finds the month a day of the year falls into. |
| Rtc.BcdRoundTrip | Arduino/MySensor/ClockRebuild/DS3232RTC.cpp:322-333 | The two conversions undo each other, and the flag bits masked on reading are not part of the value. |
| Rtc.YearRegister | Arduino/MySensor/ClockRebuild/DS3232RTC.cpp:104-137 | The year register keeps exactly the years from 2000 on. |
| Rtc.SetThenGet | Arduino/MySensor/ClockRebuild/DS3232RTC.cpp:80-137 | Setting and reading back is the identity exactly for times from 2000 on. |
| Rtc.Ds3232.Set | Arduino/MySensor/ClockRebuild/DS3232RTC.cpp:92-102 | The registers hold the time exactly if it is from 2000 on; nothing changes on a bus error. |
| Rtc.Ds3232.Get | Arduino/MySensor/ClockRebuild/DS3232RTC.cpp:80-90 | The seconds of the stored date, or 0 on a bus error. |
| SystemClock.Clock.Now | Arduino/libraries/Time/Time.cpp:250-272 | The time set plus the whole seconds since, across turnovers of the millisecond counter, or the provider's time when a synchronisation is due. |
| SystemClock.Clock.CatchUp | Arduino/libraries/Time/Time.cpp:252-259 | Every whole second of uptime is counted, over the turnover of the counter. |
| SystemClock.Clock.SetTime | Arduino/libraries/Time/Time.cpp:274-284 | The clock runs from the given time on. |
| SystemClock.PollTwice | Arduino/libraries/Time/Time.cpp:250-272 | Polling in between loses no second and counts none twice. |
| AlarmSpec.UpdatedIsLeastIff | Arduino/libraries/TimeAlarms/TimeAlarms.cpp:42-79 | For all values and times of 32 bits: the new trigger of a due daily or weekly alarm is the least occurrence after now exactly if no sum overflows and its value is not too long for the period. |
| AlarmSpec.UpdatedIsLeast | Arduino/libraries/TimeAlarms/TimeAlarms.cpp:42-79 | In particular for daily values up to a day and weekly values up to a week. |
| AlarmSpec.LongValueIsLate | Arduino/libraries/TimeAlarms/TimeAlarms.cpp:115-123 | An accepted daily value for which it is not. |
| AlarmSpec.StartOfPeriod | Arduino/libraries/Time/TimeLib.h:76-88 | The midnight and Sunday macros give the start of the day and of the week. |
| AlarmSpec.EachOccurrenceFiresOnce | Arduino/libraries/TimeAlarms/TimeAlarms.cpp:232-252 | Served more often than once a period, a repeating alarm fires exactly once for each occurrence. |
| AlarmSpec.CreatedAlarmFires | Arduino/libraries/TimeAlarms/TimeAlarms.cpp:232-290 | The same from its creation on. |
| AlarmSpec.OneShotFiresOnce | Arduino/libraries/TimeAlarms/TimeAlarms.cpp:232-252 | A one-shot fires at most once, and is disabled exactly after it has. |
| AlarmSpec.TimerFiresIff | Arduino/libraries/TimeAlarms/TimeAlarms.cpp:42-79 | A repeating timer fires at a service exactly if its value has passed since it fired last or was enabled, over any ascending services. |
| AlarmSpec.TimerFiringsApart | Arduino/libraries/TimeAlarms/TimeAlarms.cpp:232-252 | Two firings of a timer are at least its value apart. |
| AlarmSpec.TimerIsDue | Arduino/libraries/TimeAlarms/TimeAlarms.cpp:42-105 | A timer enabled at t is due exactly from t plus its value on. |
| AlarmSpec.CreatedOnceFiresAt | Arduino/libraries/TimeAlarms/TimeAlarms.cpp:232-291 | A one-shot alarm for a date, or a one-shot timer, fires at the first service at or after its date, or the end of its time, and at no other. |
| AlarmSpec.CreatedRepeatOnceFiresAt | Arduino/libraries/TimeAlarms/TimeAlarms.cpp:232-291 | A daily or weekly one-shot fires at the first service at or after its next occurrence and at no other. |
| AlarmSpec.OneShotFiresAtFirst | Arduino/libraries/TimeAlarms/TimeAlarms.cpp:232-252 | A one-shot slot fires at the first service that finds it due, and is free from then on. |
| AlarmSpec.FiredIsNumber | Arduino/libraries/TimeAlarms/TimeAlarms.cpp:232-252 | Counting firings one service at a time gives the number of services at which the slot fired. |
| AlarmSpec.EnabledIff | Arduino/libraries/TimeAlarms/TimeAlarms.cpp:92-105 | A slot is enabled exactly if it is in use, has a handler, and has a value where 0 means nothing. |
| AlarmSpec.EnablingAgain | Arduino/libraries/TimeAlarms/TimeAlarms.cpp:42-105 | Enabling an alarm again leaves it alone while its trigger is ahead; a timer starts again. |
| AlarmSpec.OperationsKeepConsistent | Arduino/libraries/TimeAlarms/TimeAlarms.cpp:42-154 | An enabled slot is always allocated and has a handler. |
| AlarmSpec.NextIsEnabledIff | Arduino/libraries/TimeAlarms/TimeAlarms.cpp:254-266 | The least trigger of the slots in use is that of the next enabled alarm exactly if no disabled slot has an earlier one. |
| AlarmSpec.NextOrNoneIff | Arduino/libraries/TimeAlarms/TimeAlarms.cpp:254-266 | What is returned is the next alarm's trigger, or 0 if none is scheduled, exactly if: with an alarm enabled, no disabled slot comes first and the least trigger is not the last moment; with none, no slot in use announces a trigger. |
| AlarmSpec.DisabledAlone | Arduino/libraries/TimeAlarms/TimeAlarms.cpp:254-266 | A disabled timer on its own, whose trigger is returned although nothing is scheduled. |
| AlarmSpec.DisabledIsCounted | Arduino/libraries/TimeAlarms/TimeAlarms.cpp:254-266 | Two timers of which the disabled one is reported. |
| AlarmPool.TimeAlarms.UpdateNextTrigger | Arduino/libraries/TimeAlarms/TimeAlarms.cpp:42-79 | One slot is updated, the others are kept. |
| AlarmPool.TimeAlarms.Enable | Arduino/libraries/TimeAlarms/TimeAlarms.cpp:92-105 | Enabled and scheduled, or disabled without a handler or value. |
| AlarmPool.TimeAlarms.Disable | Arduino/libraries/TimeAlarms/TimeAlarms.cpp:107-113 | One slot is disabled. |
| AlarmPool.TimeAlarms.Write | Arduino/libraries/TimeAlarms/TimeAlarms.cpp:115-123 | A new value is scheduled afresh. |
| AlarmPool.TimeAlarms.Release | Arduino/libraries/TimeAlarms/TimeAlarms.cpp:144-154 | The slot is free. |
| AlarmPool.TimeAlarms.ServiceAlarms | Arduino/libraries/TimeAlarms/TimeAlarms.cpp:232-252 | Exactly the due slots fire, in order, and each is freed or rescheduled. |
| AlarmPool.TimeAlarms.GetNextTrigger | Arduino/libraries/TimeAlarms/TimeAlarms.cpp:254-266 | The least trigger among the slots in use below the last moment, or 0; which is what is promised, the next alarm's trigger or 0, exactly under the condition of NextOrNoneIff. |
| AlarmPool.TimeAlarms.Create | Arduino/libraries/TimeAlarms/TimeAlarms.cpp:269-291 | The first free slot, and when there is none. |
| Rs485Spec.FrameDelivered | Arduino/libraries/MySensors/core/MyTransportRS485.cpp:134-318 | A frame for this station or for all is delivered with its data, length and sender, for any data bytes, and leaves the machine idle. |
| Rs485Spec.StreamDelivered | Arduino/libraries/MySensors/core/MyTransportRS485.cpp:134-318 | Frames for this station sent back to back all arrive, in order, for any ids and lengths. |
| Rs485Spec.QuietLine | Arduino/libraries/MySensors/core/MyTransportRS485.cpp:134-180 | A header window without SOH in its last five bytes starts no frame early. |
| Rs485Spec.AfterFrame | Arduino/libraries/MySensors/core/MyTransportRS485.cpp:134-180 | Neither does the header of an earlier frame. |
| Rs485Spec.ForeignBytesSkipped | Arduino/libraries/MySensors/core/MyTransportRS485.cpp:134-180 | Bytes that hold no header for this station are passed over. |
| Rs485Spec.SharedDelivered | Arduino/libraries/MySensors/core/MyTransportRS485.cpp:134-318 | On a line that other stations share, of all frames exactly those for this station arrive, in order and unchanged, if no window before or within a frame is taken for a header. |
| Rs485Spec.QuietIsClear | Arduino/libraries/MySensors/core/MyTransportRS485.cpp:134-180 | And none is where SOH starts frames and nothing else. |
| Rs485Spec.FrameArrivesIff | Arduino/libraries/MySensors/core/MyTransportRS485.cpp:134-318 | For every idle receiver and every frame for its station: the frame is handed over by its last byte, with its data and sender, exactly if no window inside its header starts a frame. |
| Rs485Spec.OnlyFramesAreReceived | Arduino/libraries/MySensors/core/MyTransportRS485.cpp:134-240 | Whatever comes over the line: when a packet is handed over, the bytes since its header are a whole frame for this station, with exactly that sender and data and the right checksum; until then nothing of the last packet changes. |
| Rs485Spec.WrongChecksumIsDropped | Arduino/libraries/MySensors/core/MyTransportRS485.cpp:205-232 | A frame with any other checksum brings nothing. |
| Rs485Spec.DamagedByteIsDropped | Arduino/libraries/MySensors/core/MyTransportRS485.cpp:184-232 | Nor does a frame of which one byte of data has been changed. |
| Rs485Spec.ChecksumDetectsByte | Arduino/libraries/MySensors/core/MyTransportRS485.cpp:184-232 | Changing one byte of the data changes the checksum. |
| Rs485Spec.FrameBytes | Arduino/libraries/MySensors/core/MyTransportRS485.cpp:242-318 | The bytes of a frame, with the sum of header and data as its checksum. |
| Rs485Spec.FalseStartIsTooLate | Arduino/libraries/MySensors/core/MyTransportRS485.cpp:134-240 | After a false start inside the header, too few bytes are left for the data to be handed over at the end of the frame. |
| Rs485Spec.StaleWindowLosesFrame | Arduino/libraries/MySensors/core/MyTransportRS485.cpp:134-180 | In particular: a window left by noise from which the next frame is lost. |
| Rs485.Transport.SerialReset | Arduino/libraries/MySensors/core/MyTransportRS485.cpp:117-126 | The machine is idle; the window is kept. |
| Rs485.Transport.ProcessByte | Arduino/libraries/MySensors/core/MyTransportRS485.cpp:134-240 | One byte is one step of the machine, in all five phases. |
| Rs485.Transport.ShiftWindow | Arduino/libraries/MySensors/core/MyTransportRS485.cpp:152-153 | The window moves by one byte. |
| Rs485.Transport.SearchHeader | Arduino/libraries/MySensors/core/MyTransportRS485.cpp:151-182 | Phase 0 of the machine. |
| Rs485.Transport.ReadHeader | Arduino/libraries/MySensors/core/MyTransportRS485.cpp:155-181 | A header is taken, and dropped unless it is for this station and from another. |
| Rs485.Transport.AddHeader | Arduino/libraries/MySensors/core/MyTransportRS485.cpp:161-163 | The checksum of the header, in eight bits. |
| Rs485.Transport.SerialProcess | Arduino/libraries/MySensors/core/MyTransportRS485.cpp:134-240 | Bytes are taken until the line is empty or a frame has ended. |
| Rs485.Transport.Send | Arduino/libraries/MySensors/core/MyTransportRS485.cpp:242-318 | The bytes of the frame, with the wrapped checksum. |
| Rs485.Transport.Receive | Arduino/libraries/MySensors/core/MyTransportRS485.cpp:357-366 | The packet is handed over once. |
| Rs485.Exchange | Arduino/libraries/MySensors/core/MyTransportRS485.cpp:134-366 | What one station sends another receives. |
| MessageLayout.GetSet | Arduino/libraries/MySensors/core/MyMessage.h:223-228 | A bit field reads back what was written, cut to its width. |
| MessageLayout.GetOther | Arduino/libraries/MySensors/core/MyMessage.h:223-228 | Writing one field leaves the others of the byte alone. |
| MessageLayout.BytesAreFields | Arduino/libraries/MySensors/core/MyMessage.h:230-250 | The two bytes of bit fields are their fields, from the lowest bit up, and nothing else. |
| SigningSpec.SignedIsGenuine | Arduino/libraries/MySensors/core/MySigningAtsha204Soft.cpp:166-352 | With agreeing keys, a message signed with the issued nonce is genuine for the receiver after any number of relays, whatever they read out of it. |
| SigningSpec.NonceLifetime | Arduino/libraries/MySensors/core/MySigningAtsha204Soft.cpp:112-155 | How long a nonce lives, also across the turnover of the clock. |
| SigningSpec.EveryAdmissionCostsANonce | Arduino/libraries/MySensors/core/MySigningAtsha204Soft.cpp:112-268 | Over any sequence of nonces issued, messages checked and timers, the messages admitted by their signature are at most as many as the nonces. |
| SigningSpec.SignatureDepends | Arduino/libraries/MySensors/core/MySigningAtsha204Soft.cpp:289-352 | Two signatures differ under some keys exactly if the nonces differ or one of the bytes to be signed: sender, destination, lengths and flags, command, type, sensor and payload. |
| SigningSpec.ReplayIsRefused | Arduino/libraries/MySensors/core/MySigningAtsha204Soft.cpp:204-268 | A recorded message that was genuine under its nonce is refused under any other nonce, under some keys. |
| SigningSpec.CarriedOverIsRefused | Arduino/libraries/MySensors/core/MySigningAtsha204Soft.cpp:204-268 | So is a signature that is carried over to a message of the same length with another byte to be signed. |
| SigningSpec.SaltDepends | Arduino/libraries/MySensors/core/MySigningAtsha204Soft.cpp:227-249 | The salt depends on all of the digest, the id and the serial number. |
| SigningSpec.SaltedReplayIsRefused | Arduino/libraries/MySensors/core/MySigningAtsha204Soft.cpp:204-268 | A replay under another nonce is refused among listed senders as well. |
| SigningSpec.OtherKeyIsRefused | Arduino/libraries/MySensors/core/MySigningAtsha204Soft.cpp:312-352 | A sender with another key is refused, for some functions. |
| SigningSpec.OtherSerialIsRefused | Arduino/libraries/MySensors/core/MySigningAtsha204Soft.cpp:227-249 | A listed sender that signs with another serial number is refused, for some functions. |
| SigningSpec.UnlistedIsRefused | Arduino/libraries/MySensors/core/MySigningAtsha204Soft.cpp:227-249 | A sender that is not on the list is refused whatever it signs. |
| SigningSpec.NonceIsKept | Arduino/libraries/MySensors/core/MySigningAtsha204Soft.cpp:157-164 | All the bytes of a nonce that travel count. |
| SigningSpec.WhatIsSigned | Arduino/libraries/MySensors/core/MySigning.cpp:327-355 | Which messages need no signature: acknowledgements, the internal messages of routing and handshake, and the data of streams. |
| SigningSpec.RelaysKeepSigned | Arduino/libraries/MySensors/core/MySigning.cpp:327-355 | Over any relays, which count the hops of pings and pongs, whatever may be signed changes in `last` only, which no signature covers. |
| SigningSpec.RelaysBreakPings | Arduino/libraries/MySensors/core/MyTransport.cpp:820-828 | The exemption of pings and pongs is needed: the first relay changes what a signature would cover. |
| Signing.Handshake | Arduino/libraries/MySensors/core/MySigning.cpp:163-274 | The whole exchange: a signed message of up to 23 bytes is admitted with its content, and its replay is not. |
| Signing.Memcmp | Arduino/libraries/MySensors/core/MySigning.cpp:295-323 | Zero exactly for equal buffers of any length. |
| Signing.Signer.SetWants | Arduino/libraries/MySensors/core/MySigning.cpp:368-459 | One node's bit changes and no other. |
| Signing.Signer.ProcessPresentation | Arduino/libraries/MySensors/core/MySigning.cpp:368-459 | The tables record what the other node requires. |
| Signing.Signer.CheckTimer | Arduino/libraries/MySensors/core/MySigningAtsha204Soft.cpp:112-126 | An expired session is closed and its nonces purged. |
| Signing.Signer.GetNonce | Arduino/libraries/MySensors/core/MySigningAtsha204Soft.cpp:128-155 | A session is opened for the nonce that is returned. |
| Signing.Signer.SignMsg | Arduino/libraries/MySensors/core/MySigningAtsha204Soft.cpp:166-202 | The signed message, salted if the destination whitelists; the nonce is used up. |
| Signing.Signer.VerifyMsg | Arduino/libraries/MySensors/core/MySigningAtsha204Soft.cpp:204-268 | Accepts exactly a genuine message in a live session, and ends the session. |
| Signing.Signer.LookUp | Arduino/libraries/MySensors/core/MySigningAtsha204Soft.cpp:227-249 | The first entry of the sender counts. |
| Signing.Signer.ProcessNonceResponse | Arduino/libraries/MySensors/core/MySigning.cpp:489-513 | Only a nonce from the destination is used. |
| Signing.Signer.Admit | Arduino/libraries/MySensors/core/MySigning.cpp:224-274 | Which messages a node that requires signatures lets through, and what becomes of its session. |
| Signing.Signer.StartSigning | Arduino/libraries/MySensors/core/MySigning.cpp:163-216 | Which messages wait for a nonce, and which go out unsigned. |
| OtaSpec.UpdateEnds | Arduino/libraries/MySensors/core/MyOTAFirmwareUpdate.cpp:40-144 | An update of any announced size that is not restarted ends: requests, accepted blocks and giving up are bounded, whatever arrives, and after that many it is over. |
| OtaSpec.StepBurnsFuel | Arduino/libraries/MySensors/core/MyOTAFirmwareUpdate.cpp:40-144 | Block and retries go down lexicographically with each of them. |
| OtaSpec.AcceptedDescending | Arduino/libraries/MySensors/core/MyOTAFirmwareUpdate.cpp:94-144 | Blocks are accepted in descending order without gaps, each once, for any announced size. |
| OtaSpec.OfferStartsIff | Arduino/libraries/MySensors/core/MyOTAFirmwareUpdate.cpp:65-93 | After any events, an offer starts an update exactly if it differs from the last offer received, or the stored configuration, and the flash is ready. |
| OtaSpec.GivenUpForGood | Arduino/libraries/MySensors/core/MyOTAFirmwareUpdate.cpp:40-93 | A run that gives up after six requests without an answer, after which the same offer is ignored. |
| OtaSpec.SixUnansweredRequests | Arduino/libraries/MySensors/core/MyOTAFirmwareUpdate.cpp:40-63 | From the start or any accepted block on, an update that is not answered sends six requests more than half a second apart and gives up at the seventh. |
| OtaSpec.SilenceIsCounted | Arduino/libraries/MySensors/core/MyOTAFirmwareUpdate.cpp:40-63 | Each request without an answer uses up a retry and changes nothing else. |
| OtaSpec.TickSendsIff | Arduino/libraries/MySensors/core/MyOTAFirmwareUpdate.cpp:40-63 | A tick does something exactly if an update runs whose last request is more than half a second old. |
| FlashSpec.HeldIff | Arduino/libraries/MySensors/core/MyOTAFirmwareUpdate.cpp:81-113 | After the erase, bytes are held as programmed exactly if every cell above the lower half has the 1 bits of its byte. |
| FlashSpec.UpperHalfIsLost | Arduino/libraries/MySensors/drivers/SPIFlash/SPIFlash.cpp:41-43 | A used flash in which an image of 2048 blocks is not held. |
| Ota.Fetch | Arduino/libraries/MySensors/core/MyOTAFirmwareUpdate.cpp:40-144 | An update in which every request is answered in turn ends after its blocks, each asked for once; with room in flash, always up to 2047 blocks, it is committed exactly if the CRC of the payloads is the announced one, and then the boot cells announce its size. |
| Ota.Updater.Request | Arduino/libraries/MySensors/core/MyOTAFirmwareUpdate.cpp:40-63 | When a block is asked for, which, and when the node gives up. |
| Ota.Updater.ProcessOffer | Arduino/libraries/MySensors/core/MyOTAFirmwareUpdate.cpp:65-93 | A different configuration starts an update over an erased lower half of the flash, the rest kept; without a ready flash nothing is erased. |
| Ota.Updater.StoreBlock | Arduino/libraries/MySensors/core/MyOTAFirmwareUpdate.cpp:107-113 | The block is programmed into its place and nowhere else, for any size. |
| Ota.Updater.EraseLower32K | Arduino/libraries/MySensors/core/MyOTAFirmwareUpdate.cpp:81-84 | The lower half of the flash reads 0xFF, the rest is kept. |
| Ota.Updater.WriteBytes | Arduino/libraries/MySensors/core/MyOTAFirmwareUpdate.cpp:107-112 | Every 0 bit of the bytes is cleared in its cell, no bit is set, and nothing else changes. |
| Ota.Updater.Abandon | Arduino/libraries/MySensors/core/MyOTAFirmwareUpdate.cpp:146-159 | A running update is abandoned. |
| Ota.Updater.Finish | Arduino/libraries/MySensors/core/MyOTAFirmwareUpdate.cpp:114-134 | Configuration and boot signature are written exactly if the CRC matches; over erased cells a reader of the signature then gets the size of the image. |
| Ota.Updater.SignatureReads | Arduino/libraries/MySensors/core/MyOTAFirmwareUpdate.cpp:120-130 | A reader that looks for the letters, the size with its upper byte first, and the colon gets the size of the image out of the boot signature. |
| Ota.Updater.ProcessBlock | Arduino/libraries/MySensors/core/MyOTAFirmwareUpdate.cpp:94-144 | Only the block in turn is stored; the commit comes after the last and exactly if the CRC of the image in flash matches; of images of up to 2047 blocks the flash holds exactly the accepted data, of images of up to 4095 exactly if there was room above the erased half. |
| Ota.Updater.IsValidFirmware | Arduino/libraries/MySensors/core/MyOTAFirmwareUpdate.cpp:165-182 | True exactly if the CRC of the image in flash is the announced one. |
| RcSwitchSpec.ReceiverUndoesSender | Arduino/libraries/RCSwitch/RCSwitch.cpp:601-658 | For each predefined protocol, inverted or not, and every code of 3 to 32 bits, the edges of a repeated transmission decode to the code and its length. |
| RcSwitchSpec.TransmissionIsReceived | Arduino/libraries/RCSwitch/RCSwitch.cpp:487-701 | On a line that is low before and after, a code is received by the interrupt handler in any state and after any silence, in all protocols but number 4, with its length and value, if it is sent at least four times, in protocol 6 three times; the code of all ones in protocol 6 reads as zero. |
| RcSwitchSpec.ThreeRepetitionsIff | Arduino/libraries/RCSwitch/RCSwitch.cpp:660-701 | In the other protocols, after a silence unlike the gap, three repetitions are received exactly if the handler has counted one gap by the end of the silence: before it, or with it; otherwise nothing is received after it. |
| RcSwitchSpec.FreshMissesThree | Arduino/libraries/RCSwitch/RCSwitch.cpp:660-701 | A receiver that has heard nothing before misses three repetitions. |
| RcSwitchSpec.EdgesOfTransmission | Arduino/libraries/RCSwitch/RCSwitch.cpp:487-531 | The edges of a transmission on such a line: one where it starts, and the ends of all segments but the last, which runs into the silence. |
| RcSwitchSpec.EdgesOfInverted | Arduino/libraries/RCSwitch/RCSwitch.cpp:487-531 | In protocol 6 the first edge comes a segment late, and the last segment has an end. |
| RcSwitchSpec.Protocol4NeedsPauses | Arduino/libraries/RCSwitch/RCSwitch.cpp:660-701 | Within one transmission nothing of protocol 4 is received, however often a code is repeated. |
| RcSwitchSpec.Protocol4OnTheLine | Arduino/libraries/RCSwitch/RCSwitch.cpp:487-701 | On a line that is low before and after, nothing is received after the first edge of such a transmission. |
| RcSwitchPauses.PausedCodeIsReadIff | Arduino/libraries/RCSwitch/RCSwitch.cpp:601-701 | A code of protocol 4 after a gap above the separation limit is read right by the first protocol that accepts it exactly if the gap lasts from 4390 to 14724 microseconds. |
| RcSwitchPauses.PausedCodeIsReceived | Arduino/libraries/RCSwitch/RCSwitch.cpp:660-701 | Sent at least four times over an idle line, with pauses in that range of which each is like the one before, a code of protocol 4 is received by the interrupt handler in any state, with its length and value. |
| RcSwitchPauses.ThreeSendsIff | Arduino/libraries/RCSwitch/RCSwitch.cpp:660-701 | After a silence unlike the pause, three such sends are received exactly if one gap has been counted by the end of the silence. |
| RcSwitchPauses.Protocol6Mishears | Arduino/libraries/RCSwitch/RCSwitch.cpp:601-658 | After other gaps protocol 6 takes it for another code or for none. |
| RcSwitchSpec.InterruptedIsSound | Arduino/libraries/RCSwitch/RCSwitch.cpp:660-701 | Over every sequence of interrupts the buffer index is in range and the decoder is called with 1 to 67 durations. |
| RcSwitchSpec.ReceptionMeans | Arduino/libraries/RCSwitch/RCSwitch.cpp:660-701 | Something is received only at a gap above 4300 microseconds that is like the one before, when one gap has been counted, and of at least eight durations; and it is what the first protocol that accepts them makes of them, with its number and pulse length. |
| RcSwitchSpec.BurstIsNoise | Arduino/libraries/RCSwitch/RCSwitch.cpp:692-696 | A burst of more than 67 short pulses brings nothing, nor does the gap after it. |
| RcSwitchSpec.TryIsRight | Arduino/libraries/RCSwitch/RCSwitch.cpp:679-684 | Whichever protocol is the first to accept the durations, the value is right, and it is the sender's or an earlier one; the sender's comes with its pulse length. |
| RcSwitchSpec.EarlierProtocolsAgree | Arduino/libraries/RCSwitch/RCSwitch.cpp:76-83 | Where the predefined protocols overlap in tolerance, they read the same bits. |
| RcSwitchSpec.Protocol1OnProtocol6 | Arduino/libraries/RCSwitch/RCSwitch.cpp:634-650 | Protocol 1 takes the code of all ones in protocol 6 for zero, and misses every other. |
| RcSwitchSpec.NotedIsWindow | Arduino/libraries/RCSwitch/RCSwitch.cpp:613-633 | What the receiver notes from one gap to the next is a window of two repetitions on the line. |
| RcSwitchSpec.DataAt | Arduino/libraries/RCSwitch/RCSwitch.cpp:499-505 | The k-th pair of levels carries the k-th bit, most significant first. |
| RcSwitchSpec.TriStateIsSpelled | Arduino/libraries/RCSwitch/RCSwitch.cpp:442-464 | A tri-state word of up to 16 letters goes over the line letter by letter. |
| RcSwitch.Sender.Send | Arduino/libraries/RCSwitch/RCSwitch.cpp:487-516 | As many repetitions as set of the last n bits, most significant first, and the synchronisation pulses. |
| RcSwitch.Sender.SendTriState | Arduino/libraries/RCSwitch/RCSwitch.cpp:442-464 | The same for the code that two bits per letter make. |
| RcSwitch.Sender.SetProtocol | Arduino/libraries/RCSwitch/RCSwitch.cpp:123-132 | An unknown number selects the first protocol. |
| RcSwitch.Carry | Arduino/libraries/RCSwitch/RCSwitch.cpp:487-701 | What a sender puts on an idle line, at least four times, the receiver that hears it receives. |
| RcSwitch.Receiver.ReceiveProtocol | Arduino/libraries/RCSwitch/RCSwitch.cpp:601-658 | Pairs of durations become bits within the tolerance; one pair that is neither bit, or fewer than eight edges, leave the last reception alone. |
| RcSwitch.Receiver.HandleInterrupt | Arduino/libraries/RCSwitch/RCSwitch.cpp:660-701 | When durations are noted, dropped, or decoded by the first protocol that makes sense of them. |
| GatewayProtocolSpec.LineParses | Arduino/libraries/MySensors/core/MyProtocolMySensors.cpp:30-107 | The printed line without its newline parses, for every message whose line the parser's buffers can take: to its sender, with its sensor, command and type, and its acknowledgement flag as the request for one. |
| GatewayProtocolSpec.AnyNumbersParse | Arduino/libraries/MySensors/core/MyProtocolMySensors.cpp:43-99 | A line of any five numbers of 32 bits: which bits of them are kept, and when an acknowledgement is asked for. |
| GatewayProtocolSpec.LineIsMessageIff | Arduino/libraries/MySensors/core/MyProtocolMySensors.cpp:84-99 | A line is a message exactly if it has five pieces or more. |
| GatewayProtocolSpec.ReadingLooksLike | Arduino/libraries/MySensors/core/MyProtocolMySensors.cpp:101-107 | The line of a reading. |
| GatewayProtocolSpec.StreamLooksLike | Arduino/libraries/MySensors/core/MyProtocolMySensors.cpp:101-107 | The line of two bytes of a stream. |
| GatewayProtocolSpec.LongTextIsCut | Arduino/libraries/MySensors/core/MyMessage.cpp:239-250 | Of a payload of more than 25 characters the first 25 are taken. |
| GatewayProtocolSpec.TextReturnsIff | Arduino/libraries/MySensors/core/MyProtocolMySensors.cpp:60-97 | A text comes back unchanged exactly if it has no NUL and no separator and does not end in CR or LF. |
| GatewayProtocolSpec.LineEndIsLeftIff | Arduino/libraries/MySensors/core/MyProtocolMySensors.cpp:72-80 | A line end is left after stripping exactly if the payload ended in two, or, above 256 characters, if the wrapped index missed it. |
| GatewayProtocolSpec.CrLfKeepsCr | Arduino/libraries/MySensors/core/MyProtocolMySensors.cpp:72-80 | A payload that ends in CR LF keeps its CR. |
| GatewayProtocolSpec.StreamReturns | Arduino/libraries/MySensors/core/MyProtocolMySensors.cpp:61-69 | The bytes of a stream come back through hexadecimal. |
| GatewayProtocolSpec.NumbersReturn | Arduino/libraries/MySensors/core/MyMessage.cpp:110-209 | Every number comes back through the getter of its type; an unsigned 32-bit one exactly below 2^31. |
| GatewayProtocolSpec.AtoiOfPrinted | Arduino/libraries/MySensors/core/MyMessage.cpp:110-209 | Reading a printed number gives it back, or the nearest that fits. |
| GatewayProtocolSpec.AtoiReads | Arduino/libraries/MySensors/core/MyMessage.cpp:138-209 | A number is read past white space and a sign, up to the first character that is no digit. |
| GatewayProtocolSpec.HexIsRead | Arduino/libraries/MySensors/core/MyProtocolMySensors.cpp:198-208 | Hexadecimal letters of either case are read. |
| GatewayProtocolSpec.HexBytesOfText | Arduino/libraries/MySensors/core/MyMessage.cpp:80-98 | The hexadecimal printer and reader undo each other. |
| GatewayProtocolSpec.LineFits | Arduino/libraries/MySensors/core/MyProtocolMySensors.cpp:101-107 | A line never exceeds the send buffer. |
| GatewayProtocolSpec.LineFitsHex | Arduino/libraries/MySensors/core/MyProtocolMySensors.cpp:61-69 | The stream payload of a printed line fits the parser's buffer. |
| GatewayProtocolSpec.TokensOfLine | Arduino/libraries/MySensors/core/MyProtocolMySensors.cpp:38-44 | A line splits into the five numbers and the pieces of the payload. |
| GatewayProtocol.MyMessage.ProtocolParse | Arduino/libraries/MySensors/core/MyProtocolMySensors.cpp:30-99 | Five tokens are needed and a sixth is the payload; a complete line becomes a message from the gateway that is no acknowledgement; an incomplete one is refused with the fields read so far changed. |
| GatewayProtocol.MyMessage.TakeField | Arduino/libraries/MySensors/core/MyProtocolMySensors.cpp:43-82 | Each token goes to its place. |
| GatewayProtocol.Strtok | Arduino/libraries/MySensors/core/MyProtocolMySensors.cpp:39-42 | Empty pieces between separators are skipped. |
| GatewayProtocol.MyMessage.SetText | Arduino/libraries/MySensors/core/MyMessage.cpp:239-250 | A text of at most 25 characters; none is the empty one. |
| GatewayProtocol.MyMessage.SetCustom | Arduino/libraries/MySensors/core/MyMessage.cpp:230-237 | At most 25 bytes. |
| GatewayProtocol.MyMessage.GetString | Arduino/libraries/MySensors/core/MyMessage.cpp:110-136 | The text of a payload of any type but float. |
| GatewayProtocol.MyMessage.ProtocolFormat | Arduino/libraries/MySensors/core/MyProtocolMySensors.cpp:101-107 | Sender, sensor, command, acknowledgement, type and payload between semicolons, and a newline. |
| GatewayProtocol.MyMessage.GetCustomString | Arduino/libraries/MySensors/core/MyMessage.cpp:90-98 | Two letters for every byte, the upper half first. |
| GatewayProtocol.MyMessage.DecodeHex | Arduino/libraries/MySensors/core/MyProtocolMySensors.cpp:62-69 | A byte for every two letters, the upper half first. |
| CircleSpec.OctantIsArcIff | Arduino/libraries/U8glib/utility/u8g_circle.c:239-272 | For every radius: the octant is one point in every column up to the diagonal, each nearest to the circle in its column, exactly if the decision variable, computed without limits, fits the signed integers wherever its sign is read. |
| CircleSpec.OctantIsArc | Arduino/libraries/U8glib/utility/u8g_circle.c:239-272 | In particular for radii up to half the range of the signed integers. |
| CircleSpec.ExactTracks | Arduino/libraries/U8glib/utility/u8g_circle.c:257-271 | The step keeps f the error of the next midpoint, and the error within y of zero. |
| CircleSpec.TracksIsBounded | Arduino/libraries/U8glib/utility/u8g_circle.c:239-272 | f and both deltas stay within 2r + 1, and the point is on the circle. |
| CircleSpec.NearestInColumn | Arduino/libraries/U8glib/utility/u8g_circle.c:239-272 | At most two pixels of a column are nearest, and two only half-way. |
| CircleSpec.WideCircleIsWrong | Arduino/libraries/U8glib/utility/u8g_circle.c:246-254 | Beyond the range of the integers the second point is off, and the octant is not the circle's. |
| CircleSpec.CircleIsRound | Arduino/libraries/U8glib/utility/u8g_circle.c:208-272 | Every pixel drawn is on the circle to the nearest pixel, for all radii that come out right. |
| CircleSpec.MirroredIsWhole | Arduino/libraries/U8glib/utility/u8g_circle.c:208-237 | Every point of the octant shows in each of the chosen corners. |
| CircleSpec.CircleIsWhole | Arduino/libraries/U8glib/utility/u8g_circle.c:208-272 | A pixel is drawn exactly if it lies in a chosen corner and the point that it mirrors is on the arc, for all radii that come out right. |
| CircleSpec.InsideIsCovered | Arduino/libraries/U8glib/utility/u8g_circle.c:295-359 | The octant's columns, mirrored, cover every point inside the circle. |
| CircleSpec.CoveredIsInside | Arduino/libraries/U8glib/utility/u8g_circle.c:295-359 | And nothing beyond a pixel's rounding. |
| CircleSpec.DiscIsFilled | Arduino/libraries/U8glib/utility/u8g_circle.c:295-359 | The disc that is drawn is the filled circle: in the chosen quadrants every pixel inside the circle, and none outside them or beyond a pixel's rounding. |
| CircleSpec.QuadrantCovers | Arduino/libraries/U8glib/utility/u8g_circle.c:295-324 | The two lines of a point cover, in their quadrant, exactly the two columns below the point and its mirror image. |
| CircleDrawing.Display.DrawCircle | Arduino/libraries/U8glib/utility/u8g_circle.c:239-272 | What is drawn is the octant, mirrored into the chosen corners, point by point. |
| CircleDrawing.Display.DrawDisc | Arduino/libraries/U8glib/utility/u8g_circle.c:326-359 | What is drawn are the vertical lines below the octant, mirrored into the chosen corners. |
| BounceSpec.ChangeIff | Arduino/libraries/Bounce2/Bounce2.cpp:93-116 | In terms of the samples alone: the level is that of the last sample that read, like all before it for an interval, the same; an update reports a change exactly when that level changes. |
| BounceSpec.ChangeIsStable | Arduino/libraries/Bounce2/Bounce2.cpp:93-116 | A change is reported only if a sample at least an interval ago, and every one since, read the new level. |
| BounceSpec.EdgesAlternate | Arduino/libraries/Bounce2/Bounce2.cpp:125-133 | Between two rises there is a fall, and between two falls a rise. |
| BounceSpec.FirstEdge | Arduino/libraries/Bounce2/Bounce2.cpp:22-33 | The first edge leaves the level read at attach. |
| Bounce.Button.Attach | Arduino/libraries/Bounce2/Bounce2.cpp:22-33 | Both remembered levels are the one read, nothing has changed, and the interval starts. |
| Bounce.Button.Update | Arduino/libraries/Bounce2/Bounce2.cpp:49-116 | A reading unlike the last restarts the interval; a steady one becomes the level once the interval has passed; the result tells whether it did. |
| Bounce.Button.ReadRose | Arduino/libraries/Bounce2/Bounce2.cpp:125-128 | The last update changed the level to high. |
| Bounce.Button.ReadFell | Arduino/libraries/Bounce2/Bounce2.cpp:130-133 | The last update changed the level to low. |

## Left out

- Radio, SPI, I2C, EEPROM and flash drivers, pin timing, LEDs and indications: arrays, frames and parameters stand for them.
- Inside of SHA-256, HMAC, AES, the ATSHA204 chip and the random numbers: not needed for what is proved.
- Messages processed inside `transportWait` and inside callbacks: each update, message or ping is one step, and the reply of a ping is an input.
- Length, version and signature checks at the head of `transportProcessMessage`: a `Packet` is a message that has passed them; the signature check is modelled in `Signing.dfy`.
- Signing of outgoing messages inside `transportSendWrite`: it is taken to succeed.
- Parents that change while traffic is under way: the network is proved on a fixed tree, of nodes that have their parent; the search for a parent is proved for one node.
- Broadcasts of nodes other than the gateway: frames that come back from grandchildren can overwrite routes, so the routing invariant is stated for unicast traffic.
- Handing out ids in the network model: no id responses travel, since an id response of 0 or 255 makes a ready node lose its id.
- A bound below 16 on failed uplink transmissions: the code has none beyond the four bits of the counter.
- Random delays, collision avoidance on RS485 and the order in which stations speak.
- Rs485.Transport.ProcessByte: a length field above 40 makes the original write behind its buffer; the receiver is modelled as long as data fits.
- Rs485.Transport.SerialProcess: the same.
- Ota.Updater.ProcessBlock: images of 0 or more than 4095 blocks wrap the 16-bit addresses; for them only the single write is stated, not that the flash holds the image.
- Signing.Signer.VerifyMsg: a length field above 25 makes the original read behind the payload; the model demands at most 25.
- Signing.Signer.Admit: the same.
- GatewayProtocol.MyMessage.ProtocolParse: hexadecimal text of odd or more than 50 letters makes the original leave its buffers; the model demands that it fits.
- GatewayProtocol.MyMessage.TakeField: the same.
- GatewayProtocol.MyMessage.DecodeHex: the same.
- GatewayProtocolSpec.AtoiOfPrinted: models boards whose int has 32 bits, where numbers out of range become the nearest; on AVR the conversion is undefined beyond 16 bits.
- RcSwitchSpec.InterruptedIsSound: models the 16-bit integers of AVR; differences of durations that overflow a signed integer are taken to wrap.
- Calendar.MakeTime: a month above 13 makes the original read past its table of month lengths; the model demands at most 13.
- Rtc.Ds3232.Get: registers with a month above 13, for the same reason.
- Which of the protocols up to the sender's a reception reports: they overlap in tolerance; the value, the length and that it is none after the sender's are proved.
- The MQTT variants of the gateway protocol, the line splitting of the serial gateway, and the Ethernet and Linux gateways.
- Floats: float payloads, sensor conversions and supply voltage.
- Lock-out and prompt-detection modes of the debouncer, the time-zone and 12-hour helpers, alarms of the clock chip.
- Fonts, displays, clipping, keypad and touch drivers, sketches.
