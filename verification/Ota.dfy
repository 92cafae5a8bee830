/**
 Over-the-air firmware update: the node asks for the blocks of an image one by one, the last block
 first, writes them to flash, and commits the image only if its CRC is right. Integers are those of an
 AVR: int has 16 bits, so that a block counter of 0 wraps; with an int of 32 bits an announced 0 would
 be followed by no accepted block.
 */
module OtaSpec {
  import opened Words

  datatype FirmwareConfig = FirmwareConfig(kind: nat, version: nat, blocks: nat, crc: bv16)

  const BLOCK_SIZE: nat := 16
  const START_OFFSET: nat := 10
  const RETRY: nat := 5
  const RETRY_DELAY: nat := 500

  /** The variables that drive an update. */
  datatype Control = Control(config: FirmwareConfig, ongoing: bool, lastRequest: nat, block: nat, retry: nat)

  datatype Event =
    | Tick(now: nat)                                    // firmwareOTAUpdateRequest
    | Offer(config: FirmwareConfig, flashReady: bool)   // a configuration response
    | Block(number: nat)                                // a firmware block response

  predicate RequestDue(c: Control, now: nat) {
    c.ongoing && U32(now - c.lastRequest) > RETRY_DELAY
  }

  /** A block is accepted only in its turn. */
  predicate Accepts(c: Control, number: nat) {
    c.ongoing && number == U16(c.block - 1)
  }

  function OnTick(c: Control, now: nat): Control {
    if !RequestDue(c, now) then c
    else if c.retry == 0 then c.(ongoing := false)
    else c.(retry := c.retry - 1, lastRequest := now)
  }

  function OnOffer(c: Control, config: FirmwareConfig, flashReady: bool): Control {
    if c.config == config then c
    else if !flashReady then c.(config := config, ongoing := false)
    else Control(config, true, 0, config.blocks, RETRY + 1)
  }

  function OnBlock(c: Control, number: nat): Control {
    if !Accepts(c, number) then c
    else c.(block := U16(c.block - 1), ongoing := U16(c.block - 1) != 0, retry := RETRY + 1, lastRequest := 0)
  }

  function On(c: Control, e: Event): Control {
    match e
    case Tick(now) => OnTick(c, now)
    case Offer(config, ready) => OnOffer(c, config, ready)
    case Block(number) => OnBlock(c, number)
  }

  /** The announced number of blocks fits its 16-bit field, and the variables of an update agree with it. */
  predicate Consistent(c: Control) {
    c.config.blocks < 0x1_0000 && c.retry <= RETRY + 1 && c.block < 0x1_0000
    && (c.ongoing ==> Remaining(c) <= Blocks(c.config))
  }

  /** The number of blocks that are fetched: an announced 0 wraps to 65536. */
  function Blocks(config: FirmwareConfig): nat {
    if config.blocks == 0 then 0x1_0000 else config.blocks
  }

  /** How many of them a running update still has to fetch. */
  function Remaining(c: Control): nat {
    if c.block == 0 then 0x1_0000 else c.block
  }

  lemma StepKeepsConsistent(c: Control, e: Event)
    requires Consistent(c) && (e.Offer? ==> e.config.blocks < 0x1_0000)
    ensures Consistent(On(c, e))
  {
  }

  // ----- Every update ends -----

  /** An event that sends a request, accepts a block or gives up. */
  predicate Counts(c: Control, e: Event) {
    match e
    case Tick(now) => RequestDue(c, now)
    case Offer(_, _) => false
    case Block(number) => Accepts(c, number)
  }

  predicate Restarts(c: Control, e: Event) {
    e.Offer? && e.config != c.config
  }

  /** How many such events an update has left. */
  function Fuel(c: Control): nat {
    if c.ongoing then Remaining(c) * (RETRY + 2) + c.retry + 1 else 0
  }

  /** Lexicographic descent of blocks and retries, as one number. */
  lemma StepBurnsFuel(c: Control, e: Event)
    requires Consistent(c) && !Restarts(c, e)
    ensures Fuel(On(c, e)) + (if Counts(c, e) then 1 else 0) <= Fuel(c)
    ensures Consistent(On(c, e)) && On(c, e).config == c.config
    ensures c.ongoing && Counts(c, e) ==>
              var d := On(c, e);
              Remaining(d) < Remaining(c) || (d.block == c.block && d.retry < c.retry) || !d.ongoing
  {
  }

  function Run(c: Control, events: seq<Event>): Control
    decreases |events|
  {
    if events == [] then c else Run(On(c, events[0]), events[1..])
  }

  function CountIn(c: Control, events: seq<Event>): nat
    decreases |events|
  {
    if events == [] then 0
    else (if Counts(c, events[0]) then 1 else 0) + CountIn(On(c, events[0]), events[1..])
  }

  predicate NoRestart(c: Control, events: seq<Event>)
    decreases |events|
  {
    events != [] ==> !Restarts(c, events[0]) && NoRestart(On(c, events[0]), events[1..])
  }

  /** An update of n blocks that is not restarted sends, accepts and gives up at most 7 n + 7 times
      altogether, whatever arrives and whenever; once it has, it is over. */
  lemma {:induction false} UpdateEnds(c: Control, events: seq<Event>)
    requires Consistent(c) && NoRestart(c, events)
    ensures CountIn(c, events) + Fuel(Run(c, events)) <= Fuel(c)
    ensures Fuel(c) <= 7 * Blocks(c.config) + 7
    ensures CountIn(c, events) >= Fuel(c) ==> !Run(c, events).ongoing
    decreases |events|
  {
    if events != [] {
      hide On, Counts, Consistent;
      StepBurnsFuel(c, events[0]);
      assert Fuel(c) <= 7 * Blocks(c.config) + 7 by { FuelBound(c); }
      hide Fuel;
      UpdateEnds(On(c, events[0]), events[1..]);
      FuelLeft(Run(c, events));
    }
  }

  lemma FuelBound(c: Control)
    requires Consistent(c)
    ensures Fuel(c) <= 7 * Blocks(c.config) + 7
  {
  }

  lemma FuelLeft(c: Control)
    ensures c.ongoing ==> Fuel(c) > 0
  {
  }

  /** The numbers of the blocks accepted in a run. */
  function AcceptedIn(c: Control, events: seq<Event>): seq<nat>
    decreases |events|
  {
    if events == [] then []
    else (if Taken(c, events[0]) then [events[0].number] else [])
         + AcceptedIn(On(c, events[0]), events[1..])
  }

  predicate Taken(c: Control, e: Event) {
    e.Block? && Accepts(c, e.number)
  }

  /** An accepted block is the next one down; everything else leaves the block in turn. */
  lemma StepTakesNext(c: Control, e: Event)
    requires Consistent(c) && !Restarts(c, e)
    ensures var d := On(c, e);
            if Taken(c, e)
            then c.ongoing && e.number == Remaining(c) - 1 && d.block == Remaining(c) - 1
                 && (d.ongoing ==> Remaining(d) == Remaining(c) - 1) && (!d.ongoing ==> d.block == 0)
            else d.block == c.block && Remaining(d) == Remaining(c) && (d.ongoing ==> c.ongoing)
    ensures Remaining(c) > 0 && U16(c.block) == c.block == U16(Remaining(c))
    ensures c.block == 0 ==> Remaining(c) == 0x1_0000
    ensures c.block != 0 ==> Remaining(c) == c.block
  {
  }

  lemma U16Less(x: int, y: int, k: int)
    requires U16(x) == U16(y)
    ensures U16(x - k) == U16(y - k)
  {
  }

  /** Blocks are accepted in descending order without a gap, each once. */
  lemma {:induction false} AcceptedDescending(c: Control, events: seq<Event>)
    requires Consistent(c) && NoRestart(c, events)
    ensures var a := AcceptedIn(c, events);
            && |a| <= (if c.ongoing then Remaining(c) else 0)
            && (forall i :: 0 <= i < |a| ==> a[i] == Remaining(c) - 1 - i)
            && Run(c, events).block == U16(c.block - |a|)
    decreases |events|
  {
    hide On, U16, Accepts, Consistent, Restarts, Remaining;
    if events == [] {
      StepTakesNext(c, Tick(0)) by { TickRestartsNothing(c); }
    } else {
      var d := On(c, events[0]);
      StepBurnsFuel(c, events[0]);
      StepTakesNext(c, events[0]);
      AcceptedDescending(d, events[1..]);
      var rest := AcceptedIn(d, events[1..]);
      if Taken(c, events[0]) {
        assert AcceptedIn(c, events) == [events[0].number] + rest;
        U16Less(c.block, Remaining(c), 1 + |rest|);
        assert d.block - |rest| == Remaining(c) - (1 + |rest|);
      } else {
        assert AcceptedIn(c, events) == rest;
      }
    }
  }

  lemma TickRestartsNothing(c: Control)
    ensures !Restarts(c, Tick(0))
  {
  }

  // ----- Which offers start an update -----

  /** An update of this firmware from its first request on. */
  function Started(config: FirmwareConfig): Control {
    Control(config, true, 0, config.blocks, RETRY + 1)
  }

  predicate Starts(c: Control, config: FirmwareConfig, ready: bool) {
    On(c, Offer(config, ready)) == Started(config) && c != Started(config)
  }

  /** The configuration offered last, or else the one the node had. */
  function LastOffer(config: FirmwareConfig, events: seq<Event>): FirmwareConfig {
    if events == [] then config
    else
      var e := events[|events| - 1];
      if e.Offer? then e.config else LastOffer(config, events[..|events| - 1])
  }

  lemma {:induction false} RunAppend(c: Control, events: seq<Event>, e: Event)
    ensures Run(c, events + [e]) == On(Run(c, events), e)
    decreases |events|
  {
    if events == [] {
      assert [e][1..] == [];
    } else {
      assert (events + [e])[1..] == events[1..] + [e];
      RunAppend(On(c, events[0]), events[1..], e);
    }
  }

  /** Whatever became of it, the node takes the last offer for the firmware it has. */
  lemma {:induction false} LastOfferStays(c: Control, events: seq<Event>)
    ensures Run(c, events).config == LastOffer(c.config, events)
    decreases |events|
  {
    if events != [] {
      var front := events[..|events| - 1];
      LastOfferStays(c, front);
      RunAppend(c, front, events[|events| - 1]);
      assert events == front + [events[|events| - 1]];
    }
  }

  /** After any events, an offer starts an update exactly if it differs from the offer before it, or from
      the stored configuration if there was none, and the flash is ready. */
  lemma OfferStartsIff(c: Control, events: seq<Event>, config: FirmwareConfig, ready: bool)
    ensures Starts(Run(c, events), config, ready) <==> config != LastOffer(c.config, events) && ready
  {
    LastOfferStays(c, events);
  }

  // ----- Requests that are not answered -----

  function Ticks(times: seq<nat>): (events: seq<Event>)
    ensures |events| == |times|
  {
    if times == [] then [] else [Tick(times[0])] + Ticks(times[1..])
  }

  /** More than half a second lies between them, and before the first. */
  predicate Spaced(last: nat, times: seq<nat>)
    decreases |times|
  {
    times != [] ==> U32(times[0] - last) > 500 && Spaced(times[0], times[1..])
  }

  /** A tick does something exactly if an update runs and its last request is more than half a second old. */
  lemma TickSendsIff(c: Control, now: nat)
    ensures On(c, Tick(now)) != c <==> c.ongoing && U32(now - c.lastRequest) > 500
  {
  }

  /** As many requests are sent as there are retries left, and the next one is the end of the update. */
  lemma {:induction false} SilenceIsCounted(c: Control, times: seq<nat>)
    requires c.ongoing && |times| <= c.retry + 1 && Spaced(c.lastRequest, times)
    ensures var d := Run(c, Ticks(times));
            && d.block == c.block && d.config == c.config
            && (if |times| <= c.retry then d.ongoing && d.retry == c.retry - |times| else !d.ongoing)
    decreases |times|
  {
    if times != [] {
      assert Ticks(times)[1..] == Ticks(times[1..]);
      var d := On(c, Tick(times[0]));
      if c.retry > 0 { SilenceIsCounted(d, times[1..]); } else { assert Ticks(times[1..]) == []; }
    }
  }

  /** An update that is not answered from some block on sends six requests for it, and gives up at the seventh. */
  lemma SixUnansweredRequests(c: Control, number: nat, times: seq<nat>)
    requires Accepts(c, number) && U16(c.block - 1) != 0 && |times| <= 7 && Spaced(0, times)
    ensures Run(On(c, Block(number)), Ticks(times)).ongoing <==> |times| <= 6
    ensures Run(Started(c.config), Ticks(times)).ongoing <==> |times| <= 6
  {
    hide *;
    AllRetriesLeft(c, number);
    SilenceIsCounted(On(c, Block(number)), times);
    SilenceIsCounted(Started(c.config), times);
  }

  lemma AllRetriesLeft(c: Control, number: nat)
    requires Accepts(c, number) && U16(c.block - 1) != 0
    ensures var d := On(c, Block(number)); d.ongoing && d.retry == 6 && d.lastRequest == 0
    ensures var d := Started(c.config); d.ongoing && d.retry == 6 && d.lastRequest == 0
  {
  }

  /** Seven requests too late to be answered: six are sent, and at the seventh the node gives up. */
  function Silence(): seq<Event> {
    [Tick(1000), Tick(2000), Tick(3000), Tick(4000), Tick(5000), Tick(6000), Tick(7000)]
  }

  /** So an update that was given up is not taken up again by repeating its offer. */
  lemma GivenUpForGood(c: Control, config: FirmwareConfig, ready: bool)
    requires config != c.config
    ensures var after := Run(Started(config), Silence());
            && Starts(c, config, true) && !after.ongoing && CountIn(Started(config), Silence()) == 7
            && !Starts(after, config, ready) && On(after, Offer(config, ready)) == after
  {
    var c0 := Started(config);
    var c1 := On(c0, Tick(1000));
    var c2 := On(c1, Tick(2000));
    var c3 := On(c2, Tick(3000));
    var c4 := On(c3, Tick(4000));
    var c5 := On(c4, Tick(5000));
    var c6 := On(c5, Tick(6000));
    var c7 := On(c6, Tick(7000));
    assert !c7.ongoing && c7.config == config;
    var s := Silence();
    assert s[1..][1..][1..][1..] == [Tick(5000), Tick(6000), Tick(7000)];
    assert s[1..][1..][1..] == [Tick(4000)] + s[1..][1..][1..][1..];
    hide On, Counts;
    assert CountIn(c0, s) == 1 + CountIn(c1, s[1..]);
  }
}

/** Flash memory: programming can only clear bits, and erasing the lower half sets all of them there. */
module FlashSpec {

  const FLASH_SIZE: nat := 0x1_0010
  const ERASED_SIZE: nat := 0x8000

  /** The flash after the bytes were programmed from an address on. */
  function Programmed(flash: seq<bv8>, address: nat, bytes: seq<bv8>): (s: seq<bv8>)
    requires address + |bytes| <= |flash|
    ensures |s| == |flash|
  {
    seq(|flash|, i requires 0 <= i < |flash| =>
      if address <= i < address + |bytes| then flash[i] & bytes[i - address] else flash[i])
  }

  predicate LowerErased(flash: seq<bv8>) {
    |flash| == FLASH_SIZE && forall i :: 0 <= i < ERASED_SIZE ==> flash[i] == 0xFF
  }

  predicate HasOnes(cell: bv8, b: bv8) {
    cell & b == b
  }

  /** Above the half that was erased, every cell has the 1 bits of the byte that is to go there. */
  predicate HasRoom(flash: seq<bv8>, address: nat, bytes: seq<bv8>)
    requires address + |bytes| <= |flash|
  {
    forall i :: address <= i < address + |bytes| && ERASED_SIZE <= i ==> HasOnes(flash[i], bytes[i - address])
  }

  lemma ErasedHasOnes(b: bv8)
    ensures HasOnes(0xFF, b)
  {
  }

  /** After the erase, bytes are held as they were programmed exactly if there is room above the lower half. */
  lemma HeldIff(flash: seq<bv8>, address: nat, bytes: seq<bv8>)
    requires LowerErased(flash) && address + |bytes| <= |flash|
    ensures Programmed(flash, address, bytes)[address..address + |bytes|] == bytes <==> HasRoom(flash, address, bytes)
  {
    var held := Programmed(flash, address, bytes)[address..address + |bytes|];
    assert forall i :: 0 <= i < |bytes| ==> held[i] == flash[address + i] & bytes[i];
    if HasRoom(flash, address, bytes) {
      forall i | 0 <= i < |bytes|
        ensures held[i] == bytes[i]
      {
        ErasedHasOnes(bytes[i]);
        assert address + i >= ERASED_SIZE ==> HasOnes(flash[address + i], bytes[address + i - address]);
      }
    }
    if held == bytes {
      forall i | address <= i < address + |bytes| && ERASED_SIZE <= i
        ensures HasOnes(flash[i], bytes[i - address])
      {
        assert held[i - address] == bytes[i - address];
      }
    }
  }

  /** What is programmed right below other bytes joins them. */
  lemma ProgrammedBelow(flash: seq<bv8>, address: nat, data: seq<bv8>, image: seq<bv8>)
    requires address + |data| + |image| <= |flash|
    ensures Programmed(Programmed(flash, address + |data|, image), address, data)
         == Programmed(flash, address, data + image)
  {
  }

  /** Bytes that are programmed into erased cells are there, and leave the cells behind them alone. */
  lemma ProgrammedInFront(flash: seq<bv8>, bytes: seq<bv8>, low: nat, high: nat)
    requires |bytes| <= low <= high <= |flash| && forall i :: 0 <= i < |bytes| ==> flash[i] == 0xFF
    ensures Programmed(flash, 0, bytes)[..|bytes|] == bytes
    ensures Programmed(flash, 0, bytes)[low..high] == flash[low..high]
  {
    forall i | 0 <= i < |bytes|
      ensures Programmed(flash, 0, bytes)[i] == bytes[i]
    {
      ErasedHasOnes(bytes[i]);
    }
  }

  /** A used flash after the erase: zeros in the upper half. Bytes that reach into it are lost. */
  lemma UpperHalfIsLost(flash: seq<bv8>, bytes: seq<bv8>)
    requires LowerErased(flash) && forall i :: ERASED_SIZE <= i < FLASH_SIZE ==> flash[i] == 0
    requires |bytes| == 2048 * 16 && forall i :: 0 <= i < |bytes| ==> bytes[i] == 1
    ensures Programmed(flash, 10, bytes)[10..10 + |bytes|] != bytes
  {
    HeldIff(flash, 10, bytes);
    assert !HasOnes(flash[ERASED_SIZE], bytes[ERASED_SIZE - 10]);
  }
}

module Ota {
  import opened OtaSpec
  import opened FlashSpec
  import opened Crc
  import opened Words

  /** The sizes for which 16-bit addresses and lengths do not wrap. */
  predicate Sane(config: FirmwareConfig) {
    1 <= config.blocks <= 4095
  }

  /** Where a block of an image of sane size starts. */
  function Start(number: nat): nat {
    START_OFFSET + number * BLOCK_SIZE
  }

  /** The image lies within the half that is erased: up to 2047 blocks. */
  predicate FitsLower(config: FirmwareConfig) {
    1 <= config.blocks && Start(config.blocks) <= ERASED_SIZE
  }

  /** A size as a 16-bit word keeps it. */
  function SizeWord(n: nat): bv16 {
    U16(n) as bv16
  }

  // The letters FLXIMG and a colon.
  const BOOT_MAGIC: seq<bv8> := [0x46, 0x4C, 0x58, 0x49, 0x4D, 0x47, 0x3A]

  /** What a boot loader that looks for the letters, two bytes of size, the upper first, and a colon makes of the
      first cells of the flash. */
  function AnnouncedSize(cells: seq<bv8>): Option<bv16> {
    if |cells| >= START_OFFSET && cells[..7] == BOOT_MAGIC && cells[9] == 0x3A
    then Some((cells[7] as bv16 << 8) + cells[8] as bv16)
    else None
  }

  lemma HalvesOfSize(size: bv16)
    ensures (((size >> 8) as bv8) as bv16 << 8) + ((size & 0xFF) as bv8) as bv16 == size
  {
  }

  class Updater {
    const flash: array<bv8>
    var config: FirmwareConfig
    var ongoing: bool
    var lastRequest: nat
    var block: nat
    var retry: nat
    var stored: FirmwareConfig   // the configuration block of the EEPROM
    var rebooted: bool
    // The data of the blocks accepted in this update, lowest address first, and the flash it started with.
    ghost var image: seq<bv8>
    ghost var erased: seq<bv8>

    function State(): Control
      reads this
    {
      Control(config, ongoing, lastRequest, block, retry)
    }

    function Address(number: nat): nat {
      U16(U16(number * BLOCK_SIZE) + START_OFFSET)
    }

    /** The flash from a block number up to the end of the image. */
    ghost function FlashFrom(number: nat): seq<bv8>
      requires number <= config.blocks && Sane(config) && flash.Length == FLASH_SIZE
      reads this`config, flash
    {
      flash[START_OFFSET + number * BLOCK_SIZE..START_OFFSET + config.blocks * BLOCK_SIZE]
    }

    /** While an update of sane size runs, the flash is the one it started with, its lower half erased, with the
        accepted blocks programmed into their place. */
    ghost predicate Valid()
      reads this, flash
    {
      && flash.Length == FLASH_SIZE
      && Consistent(State())
      && (ongoing && Sane(config) ==> Filled(erased, flash[..], block, image))
    }

    /** From a block number up the flash has been programmed with the image. */
    ghost predicate Filled(erased: seq<bv8>, flash: seq<bv8>, number: nat, image: seq<bv8>)
      reads this`config
    {
      && LowerErased(erased) && Start(number) + |image| == Start(config.blocks) <= FLASH_SIZE
      && flash == Programmed(erased, Start(number), image)
    }

    constructor (stored: FirmwareConfig)
      requires stored.blocks < 0x1_0000
      ensures Valid() && !ongoing && config == this.stored == stored && !rebooted && fresh(flash)
    {
      flash := new bv8[FLASH_SIZE](_ => 0xFF);
      config, this.stored := stored, stored;
      ongoing, lastRequest, block, retry, rebooted, image, erased := false, 0, 0, 0, false, [], [];
    }

    /** firmwareOTAUpdateRequest: the number of the block to ask for, if it is time to ask. */
    method Request(now: nat) returns (sent: bool, number: nat)
      requires Valid()
      modifies this
      ensures Valid() && State() == On(old(State()), Tick(now))
      ensures sent == (RequestDue(old(State()), now) && old(retry) > 0)
      ensures sent ==> number == U16(block - 1)
      ensures unchanged(`stored, `rebooted, `image, `erased)
    {
      sent, number := false, 0;
      if ongoing && U32(now - lastRequest) > RETRY_DELAY {
        if retry == 0 {
          ongoing := false;
          return;
        }
        retry := retry - 1;
        lastRequest := now;
        sent, number := true, U16(block - 1);
      }
    }

    /** A configuration response: start fetching if it is not the configuration we have. */
    method ProcessOffer(offered: FirmwareConfig, flashReady: bool) returns (processed: bool)
      requires Valid() && offered.blocks < 0x1_0000
      modifies this, flash
      ensures Valid() && State() == On(old(State()), Offer(offered, flashReady))
      ensures processed == (old(config) != offered)
      ensures ongoing && processed ==> image == [] && erased == flash[..] && LowerErased(flash[..])
      ensures flash[ERASED_SIZE..] == old(flash[ERASED_SIZE..])
      ensures unchanged(`stored, `rebooted)
      ensures !(processed && flashReady) ==> flash[..] == old(flash[..])
    {
      if config != offered {
        config := offered;
        if !flashReady {
          ongoing := false;
        } else {
          EraseLower32K();
          block := config.blocks;
          ongoing := true;
          retry := RETRY + 1;
          lastRequest := 0;
          image := [];
          erased := flash[..];
          if Sane(config) { NothingProgrammed(flash[..], Start(block)); }
        }
        return true;
      }
      return false;
    }

    method EraseLower32K()
      requires flash.Length == FLASH_SIZE
      modifies flash
      ensures forall i :: 0 <= i < ERASED_SIZE ==> flash[i] == 0xFF
      ensures flash[ERASED_SIZE..] == old(flash[ERASED_SIZE..])
    {
      for i := 0 to ERASED_SIZE
        invariant forall j :: 0 <= j < i ==> flash[j] == 0xFF
        invariant flash[ERASED_SIZE..] == old(flash[ERASED_SIZE..])
      {
        flash[i] := 0xFF;
      }
    }

    /** The driver: every bit that is 0 in a byte is cleared in its cell, and none is set. */
    method WriteBytes(address: nat, bytes: seq<bv8>)
      requires address + |bytes| <= flash.Length
      modifies flash
      ensures flash[..] == Programmed(old(flash[..]), address, bytes)
    {
      for i := 0 to |bytes|
        invariant forall k :: 0 <= k < flash.Length ==>
                    flash[k] == if address <= k < address + i then old(flash[k]) & bytes[k - address] else old(flash[k])
      {
        flash[address + i] := flash[address + i] & bytes[i];
      }
    }

    /** The sizes and magic bytes the boot loader looks for. */
    function BootSignature(): (s: seq<bv8>)
      reads this`config
      ensures |s| == START_OFFSET
    {
      var size := SizeWord(BLOCK_SIZE * config.blocks);
      [0x46, 0x4C, 0x58, 0x49, 0x4D, 0x47, 0x3A, (size >> 8) as bv8, (size & 0xFF) as bv8, 0x3A]
    }

    /** The boot loader reads the size of the image out of it. */
    lemma SignatureReads()
      ensures AnnouncedSize(BootSignature()) == Some(SizeWord(BLOCK_SIZE * config.blocks))
    {
      var size := SizeWord(BLOCK_SIZE * config.blocks);
      HalvesOfSize(size);
      assert BootSignature()[..7] == BOOT_MAGIC;
    }

    /** transportIsValidFirmware: the CRC of the image in flash. */
    method IsValidFirmware() returns (valid: bool)
      requires flash.Length == FLASH_SIZE
      ensures valid <==>
              Crc16(0xFFFF, flash[START_OFFSET..START_OFFSET + U16(config.blocks * BLOCK_SIZE)]) == config.crc
    {
      hide SerialStep16;
      var crc: bv16 := 0xFFFF;
      var n := U16(config.blocks * BLOCK_SIZE);
      var i := 0;
      while i < n
        invariant i <= n
        invariant crc == Fold(SerialStep16, 0xFFFF, flash[START_OFFSET..START_OFFSET + i])
      {
        var b := flash[i + START_OFFSET];
        FoldAppend(SerialStep16, 0xFFFF, flash[START_OFFSET..START_OFFSET + i], b);
        assert flash[START_OFFSET..START_OFFSET + i + 1] == flash[START_OFFSET..START_OFFSET + i] + [b];
        crc := FirmwareByte(crc, b);
        i := i + 1;
      }
      valid := crc == config.crc;
    }

    /** Write an accepted block to its place and nowhere else. */
    method StoreBlock(data: seq<bv8>)
      requires flash.Length == FLASH_SIZE && block < 0x1_0000 && |data| == BLOCK_SIZE
      modifies this`block, this`image, flash
      ensures block == U16(old(block) - 1) && image == data + old(image)
      ensures Address(block) + BLOCK_SIZE <= FLASH_SIZE && flash[..] == Programmed(old(flash[..]), Address(block), data)
    {
      hide U16, Programmed, Address;
      AddressFits(U16(block - 1));
      WriteBytes(Address(U16(block - 1)), data);
      image := data + image;
      block := U16(block - 1);
    }

    /** The bytes that the check of the image covers. */
    function ImageIn(flash: seq<bv8>): seq<bv8>
      requires |flash| == FLASH_SIZE
      reads this`config
    {
      flash[START_OFFSET..START_OFFSET + U16(config.blocks * BLOCK_SIZE)]
    }

    /** The last block has arrived: check, and commit if the image is the announced one. */
    method Finish() returns (committed: bool)
      requires flash.Length == FLASH_SIZE
      modifies this`stored, this`rebooted, flash
      ensures committed == (Crc16(0xFFFF, ImageIn(old(flash[..]))) == config.crc)
      ensures if committed then
                stored == config && rebooted && flash[..] == Programmed(old(flash[..]), 0, BootSignature())
              else unchanged(`stored, `rebooted) && flash[..] == old(flash[..])
      ensures committed && (forall i :: 0 <= i < START_OFFSET ==> old(flash[i]) == 0xFF) ==>
                AnnouncedSize(flash[..START_OFFSET]) == Some(SizeWord(BLOCK_SIZE * config.blocks))
    {
      hide Crc16, BootSignature, Programmed, AnnouncedSize;
      SignatureReads();
      ghost var before := flash[..];
      committed := IsValidFirmware();
      if committed {
        stored := config;
        WriteBytes(0, BootSignature());
        assert flash[..START_OFFSET] == flash[..][..START_OFFSET];
        if forall i :: 0 <= i < START_OFFSET ==> before[i] == 0xFF {
          ProgrammedInFront(before, BootSignature(), START_OFFSET, START_OFFSET);
        }
        rebooted := true;
      }
    }

    /** What an accepted block does to everything but the retry bookkeeping. */
    twostate predicate BlockDone(number: nat, data: seq<bv8>)
      requires flash.Length == FLASH_SIZE && |data| == BLOCK_SIZE && Address(number) + BLOCK_SIZE <= FLASH_SIZE
      reads this, flash
    {
      var written := Programmed(old(flash[..]), Address(number), data);
      var committed := number == 0 && Crc16(0xFFFF, ImageIn(written)) == config.crc;
      && image == data + old(image) && block == number && ongoing == (number != 0)
      && flash[..] == (if committed then Programmed(written, 0, BootSignature()) else written)
      && if committed then stored == config && rebooted
         else unchanged(`stored, `rebooted) && retry == RETRY + 1 && lastRequest == 0
    }

    /** For an image of sane size, what the flash then has of it: everything accepted, exactly if there was room
        above the erased half, and always if it lies within that half. The configuration is committed exactly if
        the CRC of what the flash has is the announced one, and else the boot signature is kept. */
    twostate predicate ImageDone(number: nat)
      requires flash.Length == FLASH_SIZE && Sane(config) && number < config.blocks
      reads this, flash
    {
      var committed := number == 0 && Crc16(0xFFFF, FlashFrom(number)) == config.crc;
      && erased == old(erased) && |erased| == FLASH_SIZE
      && Start(number) + |image| == Start(config.blocks) <= FLASH_SIZE
      && (FlashFrom(number) == image <==> HasRoom(erased, Start(number), image))
      && (FitsLower(config) ==> FlashFrom(number) == image)
      && if committed then
           stored == config && rebooted && AnnouncedSize(flash[..START_OFFSET]) == Some(SizeWord(|image|))
         else unchanged(`stored, `rebooted) && flash[..START_OFFSET] == old(flash[..START_OFFSET])
    }

    /** A block response.  In its turn the block is stored; with the last one the image is complete, and
        configuration and boot signature are written exactly if the CRC of the image in flash is the announced
        one.  Out of its turn it changes nothing. */
    method ProcessBlock(number: nat, data: seq<bv8>)
      requires Valid() && |data| == BLOCK_SIZE
      modifies this, flash
      ensures Valid() && config == old(config)
      ensures if Accepts(old(State()), number) then
                && Address(number) + BLOCK_SIZE <= FLASH_SIZE && BlockDone(number, data)
                && (Sane(config) ==> number < config.blocks && ImageDone(number))
              else unchanged(this) && flash[..] == old(flash[..])
    {
      if !ongoing || number != U16(block - 1) {
        return;
      }
      ghost var before, accepted := flash[..], image;
      if Sane(config) { InTurn(number); }
      hide Crc16, BootSignature, FlashFrom, Programmed, Address, ImageIn, U16, Filled, AnnouncedSize;
      SignatureReads();
      var committed := AcceptBlock(data);
      if Sane(config) { ImageFollows(before, accepted, number, data, committed); }
    }

    /** The block is in its turn. */
    method AcceptBlock(data: seq<bv8>) returns (committed: bool)
      requires flash.Length == FLASH_SIZE && block < 0x1_0000 && ongoing && |data| == BLOCK_SIZE
      modifies this, flash
      ensures config == old(config) && erased == old(erased) && Address(U16(old(block) - 1)) + BLOCK_SIZE <= FLASH_SIZE
      ensures BlockDone(U16(old(block) - 1), data) && (!committed ==> retry == RETRY + 1)
      ensures committed ==> retry == old(retry) && block == 0
      ensures committed == (block == 0 &&
                Crc16(0xFFFF, ImageIn(Programmed(old(flash[..]), Address(block), data))) == config.crc)
    {
      hide Crc16, BootSignature, Programmed, Address, ImageIn, U16;
      StoreBlock(data);
      committed := false;
      if block == 0 {
        ongoing := false;
        committed := Finish();
      }
      if !committed {
        retry := RETRY + 1;
        lastRequest := 0;
      }
    }

    lemma InTurn(number: nat)
      requires Valid() && Sane(config) && Accepts(State(), number)
      ensures number < config.blocks && Filled(erased, flash[..], number + 1, image)
    {
      hide Filled;
    }

    /** For images of sane size the block lands right below the accepted ones. */
    lemma ImageFollows(before: seq<bv8>, accepted: seq<bv8>, number: nat, data: seq<bv8>, committed: bool)
      requires flash.Length == |before| == FLASH_SIZE && |data| == BLOCK_SIZE && Sane(config) && number < config.blocks
      requires Filled(erased, before, number + 1, accepted)
      requires Address(number) + BLOCK_SIZE <= FLASH_SIZE && image == data + accepted
      requires var written := Programmed(before, Address(number), data);
               flash[..] == if committed then Programmed(written, 0, BootSignature()) else written
      ensures !committed ==> Filled(erased, flash[..], number, image)
      ensures |erased| == FLASH_SIZE && Start(number) + |image| == Start(config.blocks) <= FLASH_SIZE
      ensures FlashFrom(number) == image <==> HasRoom(erased, Start(number), image)
      ensures FitsLower(config) ==> FlashFrom(number) == image
      ensures number == 0 ==> ImageIn(Programmed(before, Address(number), data)) == FlashFrom(number)
      ensures number == 0 ==> |image| == BLOCK_SIZE * config.blocks
      ensures flash[..START_OFFSET] == if committed then BootSignature() else before[..START_OFFSET]
    {
      hide Crc16, BootSignature, U16, HasRoom, Programmed, Address, FlashFrom, ImageIn, LowerErased;
      PlaceOf(number);
      var low, end := Start(number), Start(config.blocks);
      var written := Programmed(before, low, data);
      BlockLands(erased, low, data, accepted);
      ProgrammedInFront(written, BootSignature(), low, end);
      FlashIs(number, flash[..]);
      if number == 0 { ImageInIs(written); }
    }

    lemma ImageInIs(all: seq<bv8>)
      requires |all| == FLASH_SIZE && Sane(config)
      ensures START_OFFSET <= Start(config.blocks) <= FLASH_SIZE
      ensures ImageIn(all) == all[START_OFFSET..Start(config.blocks)]
    {
    }

    /** The slices that matter are those of the whole flash. */
    lemma FlashIs(number: nat, all: seq<bv8>)
      requires flash.Length == FLASH_SIZE && Sane(config) && number <= config.blocks && all == flash[..]
      requires Start(config.blocks) <= FLASH_SIZE
      ensures FlashFrom(number) == all[Start(number)..Start(config.blocks)]
      ensures flash[..START_OFFSET] == all[..START_OFFSET]
    {
    }

    /** Every block has its place in the 64 KiB that 16 bits address. */
    lemma AddressFits(number: nat)
      ensures Address(number) + BLOCK_SIZE <= FLASH_SIZE
    {
      assert U16(number * BLOCK_SIZE) == number % 0x1000 * BLOCK_SIZE;
    }

    /** Nothing wraps for images of sane size. */
    lemma PlaceOf(number: nat)
      requires Sane(config) && number < config.blocks
      ensures U16(number) == number && Address(number) == START_OFFSET + number * BLOCK_SIZE
      ensures U16(config.blocks * BLOCK_SIZE) == config.blocks * BLOCK_SIZE
      ensures START_OFFSET + config.blocks * BLOCK_SIZE <= 0x1_0000
    {
    }

    /** presentBootloaderInformation abandons a running update. */
    method Abandon()
      requires Valid()
      modifies this`ongoing
      ensures Valid() && !ongoing
    {
      ongoing := false;
    }
  }

  lemma NothingProgrammed(flash: seq<bv8>, address: nat)
    requires address <= |flash|
    ensures Programmed(flash, address, []) == flash
  {
  }

  lemma LowerHasRoom(flash: seq<bv8>, address: nat, bytes: seq<bv8>)
    requires address + |bytes| <= ERASED_SIZE <= |flash|
    ensures HasRoom(flash, address, bytes)
  {
  }

  /** A block that is programmed right below the accepted ones. */
  lemma BlockLands(erased: seq<bv8>, low: nat, data: seq<bv8>, accepted: seq<bv8>)
    requires LowerErased(erased) && START_OFFSET <= low && low + |data| + |accepted| <= |erased|
    ensures var before := Programmed(erased, low + |data|, accepted);
            var written := Programmed(before, low, data);
            var image := data + accepted;
            && written == Programmed(erased, low, image)
            && (written[low..low + |image|] == image <==> HasRoom(erased, low, image))
            && (low + |image| <= ERASED_SIZE ==> written[low..low + |image|] == image)
            && (forall i :: 0 <= i < START_OFFSET ==> written[i] == 0xFF)
            && written[..START_OFFSET] == before[..START_OFFSET]
  {
    hide Programmed, HasRoom;
    var image := data + accepted;
    ProgrammedBelow(erased, low, data, accepted);
    HeldIff(erased, low, image);
    if low + |image| <= ERASED_SIZE { LowerHasRoom(erased, low, image); }
    FrontIsErased(erased, low, image);
    FrontIsErased(erased, low + |data|, accepted);
  }

  /** The cells for the boot signature stay erased. */
  lemma FrontIsErased(flash: seq<bv8>, address: nat, bytes: seq<bv8>)
    requires LowerErased(flash) && START_OFFSET <= address && address + |bytes| <= |flash|
    ensures forall i :: 0 <= i < START_OFFSET ==> Programmed(flash, address, bytes)[i] == 0xFF
    ensures Programmed(flash, address, bytes)[..START_OFFSET] == flash[..START_OFFSET]
  {
  }

  /** The payloads of blocks 0, 1, ..., one after the other. */
  function Joined(payloads: seq<seq<bv8>>): seq<bv8> {
    if payloads == [] then [] else payloads[0] + Joined(payloads[1..])
  }

  /** One request, and its answer. */
  method Answer(u: Updater, left: nat, payload: seq<bv8>, now: nat)
    requires u.Valid() && u.ongoing && Remaining(u.State()) == left + 1 && u.lastRequest == 0 && u.retry == RETRY + 1
    requires !u.rebooted && |payload| == BLOCK_SIZE && U32(now) > RETRY_DELAY
    modifies u, u.flash
    ensures u.Valid() && u.config == old(u.config) && u.ongoing == (left > 0) && u.image == payload + old(u.image)
    ensures left > 0 ==> Remaining(u.State()) == left && u.lastRequest == 0 && u.retry == RETRY + 1
    ensures left > 0 ==> !u.rebooted && u.stored == old(u.stored)
    ensures left == 0 && Sane(u.config) ==> Fetched(u, old(u.stored))
  {
    hide Crc16, HasRoom, Updater.FlashFrom, Updater.BootSignature, Updater.Address, Updater.Filled, AnnouncedSize;
    var sent, number := u.Request(now);
    assert sent && number == left;
    u.ProcessBlock(number, payload);
    if left == 0 && Sane(u.config) { LowerRoom(u); }
  }

  /** An update in which every request is answered in turn: it ends after all its blocks, each asked for once.
      If the flash has room for the image, and it always has for one of up to 2047 blocks, the image is in flash,
      and the update is committed exactly if the CRC of the payloads is the announced one. */
  method Fetch(u: Updater, offered: FirmwareConfig, payloads: seq<seq<bv8>>, times: seq<nat>) returns (requests: nat)
    requires u.Valid() && offered.blocks < 0x1_0000 && offered != u.config && !u.rebooted
    requires |payloads| == |times| == Blocks(offered)
    requires forall i :: 0 <= i < |payloads| ==> |payloads[i]| == BLOCK_SIZE && U32(times[i]) > RETRY_DELAY
    modifies u, u.flash
    ensures u.Valid() && u.config == offered && !u.ongoing && requests == Blocks(offered)
    ensures u.image == Joined(payloads)
    ensures Sane(offered) ==>
              && |u.erased| == FLASH_SIZE && |u.image| == offered.blocks * BLOCK_SIZE
              && (FitsLower(offered) ==> HasRoom(u.erased, START_OFFSET, u.image))
              && (HasRoom(u.erased, START_OFFSET, u.image) ==>
                    && u.FlashFrom(0) == u.image
                    && u.rebooted == (Crc16(0xFFFF, u.image) == offered.crc)
                    && if u.rebooted
                       then u.stored == offered && AnnouncedSize(u.flash[..START_OFFSET]) == Some(SizeWord(|u.image|))
                       else u.stored == old(u.stored))
  {
    var _ := u.ProcessOffer(offered, true);
    requests := 0;
    var left: nat := |payloads|;
    assert payloads[left..] == [];
    hide Crc16, HasRoom, Joined, Updater.FlashFrom, Updater.BootSignature, Updater.Address, Updater.Filled;
    hide AnnouncedSize;
    hide Consistent, LowerErased;
    NoPayloads();
    while left > 0
      invariant left <= |payloads| && requests == |payloads| - left
      invariant u.Valid() && u.config == offered && u.ongoing == (left > 0)
      invariant left > 0 ==> Remaining(u.State()) == left && u.lastRequest == 0 && u.retry == RETRY + 1
      invariant left > 0 ==> !u.rebooted && u.stored == old(u.stored)
      invariant u.image == Joined(payloads[left..])
      invariant left == 0 && Sane(offered) ==> Fetched(u, old(u.stored))
    {
      left := left - 1;
      Answer(u, left, payloads[left], times[left]);
      requests := requests + 1;
      MorePayload(payloads, left);
    }
    assert payloads[0..] == payloads;
  }

  /** What Fetch promises of an image of sane size. */
  ghost predicate Fetched(u: Updater, stored: FirmwareConfig)
    reads u, u.flash
  {
    && u.flash.Length == FLASH_SIZE && Sane(u.config)
    && |u.erased| == FLASH_SIZE && |u.image| == u.config.blocks * BLOCK_SIZE && START_OFFSET + |u.image| <= FLASH_SIZE
    && (FitsLower(u.config) ==> HasRoom(u.erased, START_OFFSET, u.image))
    && (u.FlashFrom(0) == u.image <==> HasRoom(u.erased, START_OFFSET, u.image))
    && u.rebooted == (Crc16(0xFFFF, u.FlashFrom(0)) == u.config.crc)
    && if u.rebooted then u.stored == u.config && AnnouncedSize(u.flash[..START_OFFSET]) == Some(SizeWord(|u.image|))
       else u.stored == stored
  }

  lemma NoPayloads()
    ensures Joined([]) == []
  {
  }

  lemma MorePayload(payloads: seq<seq<bv8>>, k: nat)
    requires k < |payloads|
    ensures Joined(payloads[k..]) == payloads[k] + Joined(payloads[k + 1..])
  {
    assert payloads[k..][1..] == payloads[k + 1..];
  }

  lemma LowerRoom(u: Updater)
    requires |u.erased| == FLASH_SIZE && START_OFFSET + |u.image| <= FLASH_SIZE
    requires |u.image| == u.config.blocks * BLOCK_SIZE
    ensures FitsLower(u.config) ==> HasRoom(u.erased, START_OFFSET, u.image)
  {
    if FitsLower(u.config) { LowerHasRoom(u.erased, START_OFFSET, u.image); }
  }
}
