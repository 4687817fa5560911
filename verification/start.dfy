/** Putting the layers together, as the program does before it enters its main loop. */
module Start {
  import opened Bits
  import opened Tap
  import opened Reference
  import opened Ftdi
  import opened Globals
  import opened Jtag
  import Mpsse
  import UsbBlaster
  import opened Packing
  import opened XvcProtocol
  import opened RbbProtocol
  import RbbMarks
  import Xvc
  import Rbb
  import BlasterChip
  import opened Scan
  import opened Interchange

  /** How well the USB link will do. */
  datatype Link = Link(patience: nat, reliable: bool)

  method OpenMpsse(target: Target, link: Link) returns (port: Port)
    ensures fresh(port.Repr()) && port.adapter.UseMpsse? && port.Target() == target
    ensures port.Reliable() == link.reliable
    ensures port.Valid() && !port.Broken() && port.Trace() == [] && port.Pending() == []
  {
    hide Run, Mpsse.Driver.Valid;
    var globals := new Globals();
    var ftdi := new Context(MpsseDevice(target), link.patience, link.reliable);
    var driver := new Mpsse.Driver(ftdi, globals);
    port := new Port(UseMpsse(driver), globals);
    assert port.Repr() == {globals, driver, driver.buffer, driver.buffer.data, ftdi};
  }

  /** `usb_blaster_init` has reset the TAP, so only a device in Test-Logic-Reset is in step with it. */
  method OpenBlaster(target: Target, link: Link) returns (port: Port)
    ensures fresh(port.Repr()) && port.adapter.UseBlaster? && port.Target() == target
    ensures port.Reliable() == link.reliable
    ensures port.Valid() && !port.Broken() && port.Trace() == [] && port.Pending() == []
  {
    hide Run, UsbBlaster.Driver.Valid;
    var globals := new Globals();
    var ftdi := new Context(BlasterDevice(target), link.patience, link.reliable);
    var driver := new UsbBlaster.Driver(ftdi, globals);
    port := new Port(UseBlaster(driver), globals);
    assert port.Repr() == {globals, driver, driver.recvBuffer, ftdi};
  }

  /** One session of the XVC server, from start-up, over any link. It ends early just if it comes to a request that the
      program does not survive, or a transfer has been given up. Otherwise every shift command is answered as one clock at
      a time. */
  method ServeXvc(target: Target, link: Link, batches: seq<seq<Request>>) returns (server: Xvc.Server, aborted: bool)
    requires forall b | b in batches :: Xvc.Batched(b)
    ensures fresh(server) && fresh(server.jtag.Repr()) && server.jtag.Target() == target
    ensures link.reliable ==> !server.jtag.Broken()
    ensures aborted && !server.jtag.Broken() ==> exists r | r in Xvc.AllRequests(batches) :: Stops(r)
    ensures !aborted ==> server.Valid() && server.client == AllClocks(Xvc.AllRequests(batches))
    ensures !aborted && !server.jtag.Broken() ==>
              && (forall r | r in Xvc.AllRequests(batches) :: !Stops(r))
              && (target.start == TestLogicReset ==>
                    Delivers(server.replies, Xvc.AllRequests(batches), Serve(target, TestLogicReset, [], server.client)))
  {
    hide Port.Linked, Port.Trace, Port.Pending, Port.Broken, Xvc.Server.Valid, AllClocks, Answers, Packed;
    hide Xvc.AllRequests, Xvc.Batched, Delivers, Serve, Stops;
    var port := OpenMpsse(target, link);
    server := new Xvc.Server(port);
    ghost var served;
    aborted, served := server.Session(batches);
    if aborted {
      Xvc.AllRequestsHas(batches, served);
    } else {
      assert batches[..served] == batches;
      if !server.jtag.Broken() && target.start == TestLogicReset {
        AnswersDeliver(target, [], Xvc.AllRequests(batches), server.replies);
      }
    }
  }

  /** Chunking is invisible: two sessions that ask for the same clocks, cut into shift commands and batches anyhow, get
      the same TDO bits, and leave the device and the tracked state the same. */
  method ServeTwice(target: Target, link: Link, x: seq<seq<Request>>, y: seq<seq<Request>>)
      returns (a: Xvc.Server, b: Xvc.Server, aborted: bool, ghost bits: seq<bool>)
    requires link.reliable && target.start == TestLogicReset
    requires (forall b | b in x :: Xvc.Batched(b)) && forall b | b in y :: Xvc.Batched(b)
    requires AllClocks(Xvc.AllRequests(x)) == AllClocks(Xvc.AllRequests(y))
    ensures aborted <==> exists r | r in Xvc.AllRequests(x) + Xvc.AllRequests(y) :: Stops(r)
    ensures !aborted ==>
              && Delivers(a.replies, Xvc.AllRequests(x), bits) && Delivers(b.replies, Xvc.AllRequests(y), bits)
              && Mask(TestLogicReset, a.jtag.Trace()) == Mask(TestLogicReset, b.jtag.Trace())
              && a.jtag.globals.state == b.jtag.globals.state
  {
    hide Port.Linked, Port.Trace, Port.Pending, Port.Broken, AllClocks, Xvc.Server.Valid;
    hide Xvc.AllRequests, Xvc.Batched, Delivers, Serve, Stops, Mask;
    var abortedA, abortedB;
    a, abortedA := ServeXvc(target, link, x);
    b, abortedB := ServeXvc(target, link, y);
    aborted := abortedA || abortedB;
    bits := [];
    if !aborted {
      bits := Serve(target, TestLogicReset, [], a.client);
      a.InStep(0);
      b.InStep(0);
      a.DrivenAlike();
      b.DrivenAlike();
    }
  }

  method OpenPort(target: Target, link: Link, useBlaster: bool) returns (port: Port)
    ensures fresh(port.Repr()) && port.adapter.UseBlaster? == useBlaster && port.Target() == target
    ensures port.Reliable() == link.reliable
    ensures port.Valid() && !port.Broken() && port.Trace() == [] && port.Pending() == []
    ensures port.globals.state == TestLogicReset
  {
    hide Port.Linked, Port.Trace, Port.Pending, Port.Broken;
    if useBlaster {
      port := OpenBlaster(target, link);
    } else {
      port := OpenMpsse(target, link);
    }
  }

  method OpenRbb(target: Target, link: Link, useBlaster: bool) returns (server: Rbb.Server)
    ensures fresh(server) && fresh(server.jtag.Repr()) && server.jtag.Target() == target
    ensures server.jtag.Reliable() == link.reliable
    ensures server.Valid() && !server.jtag.Broken() && server.client == [] && server.output == []
  {
    hide Port.Linked, Port.Trace, Port.Pending, Port.Broken, Rbb.Server.Valid;
    var port := OpenPort(target, link, useBlaster);
    server := new Rbb.Server(port);
  }

  /** One session of the remote bitbang server, from start-up, with either adapter and over any link. */
  method ServeRbb(target: Target, link: Link, useBlaster: bool, chunks: seq<seq<byte>>)
      returns (server: Rbb.Server, aborted: bool)
    requires forall c | c in chunks :: |c| <= 4096
    requires forall k | 0 <= k < |chunks| :: Rbb.Server.WellMarkedChunk(TestLogicReset, chunks, k)
    ensures fresh(server) && fresh(server.jtag.Repr())
    ensures link.reliable ==> !server.jtag.Broken()
    ensures aborted ==> server.jtag.Broken()
    ensures !server.jtag.Broken() && target.start == TestLogicReset ==>
              && server.output == OneAtATime(target, TestLogicReset, [], Flatten(chunks))
              && Spells(server.output, Levels(target, TestLogicReset, [], Flatten(chunks)))
  {
    hide Port.Linked, Port.Trace, Port.Pending, Port.Broken, Rbb.Server.Valid, Rbb.Server.WellMarkedChunk;
    hide OneAtATime, Flatten, ClocksIn;
    server := OpenRbb(target, link, useBlaster);
    assert Run(TestLogicReset, server.client) == TestLogicReset;
    aborted := server.Session(chunks);
  }

  /** The weakness of the assertions shows from power-up, with either adapter and without any failure: on the way to
      Shift-DR and through the smuggled read, for a device that drives a single one. */
  method AnswerWrongly(link: Link, useBlaster: bool) returns (server: Rbb.Server, aborted: bool)
    requires link.reliable
    ensures !aborted
    ensures server.output != OneAtATime(RbbMarks.Beacon([], 4), TestLogicReset, [], TO_SHIFT_DR + SMUGGLED)
  {
    hide Port.Linked, Port.Trace, Port.Pending, Port.Broken, Rbb.Server.Valid;
    hide OneAtATime, ClocksIn, MarksIn, ReadOut, Serve, Accepted, Run;
    var t := RbbMarks.Beacon([], 4);
    server := OpenRbb(t, link, useBlaster);
    ToShiftDrClocks();
    ToShiftDrLeads();
    NoReadsNoAnswers(t, TestLogicReset, [], TO_SHIFT_DR);
    assert Run(TestLogicReset, []) == TestLogicReset by { RunNothing(); }
    server.InStep(0);
    ghost var regions;
    aborted, regions := server.Tick(TO_SHIFT_DR);
    NoMarksWellMarked(TestLogicReset, TO_SHIFT_DR, regions);
    server.InStep(0);
    ghost var hist := server.client;
    assert hist == ClocksIn(TO_SHIFT_DR);
    aborted, regions := server.Tick(SMUGGLED);
    AssertionsTooWeak(t, hist, regions);
    OneAtATimeAppend(t, TestLogicReset, [], TO_SHIFT_DR, SMUGGLED);
    assert [] + hist == hist && server.jtag.Target() == t;
    ghost var wrong := ReadOut(Serve(t, ShiftDR, hist, ClocksIn(SMUGGLED)), MarksIn(SMUGGLED), regions);
    assert server.output == [] + wrong == wrong;
    assert [] + OneAtATime(t, ShiftDR, hist, SMUGGLED) == OneAtATime(t, ShiftDR, hist, SMUGGLED);
  }

  lemma RunNothing()
    ensures Run(TestLogicReset, []) == TestLogicReset
  {
  }

  /** Any two rigs of adapter, link and schedule, from power-up: they read the same, byte for byte, for every batch that
      looks the same through both. */
  method CompareFromStart(target: Target, linkA: Link, blasterA: bool, lateA: bool,
                          linkB: Link, blasterB: bool, lateB: bool, ops: seq<Op>)
      returns (x: seq<seq<byte>>, y: seq<seq<byte>>)
    requires linkA.reliable && linkB.reliable && (lateA ==> !blasterA) && (lateB ==> !blasterB)
    requires forall op | op in ops :: op.Valid() && Small(op)
    requires LooksSame(Rig(!blasterA, target), Rig(!blasterB, target), target.start, [], ops)
    ensures x == y && HoldsAll(Rig(!blasterA, target), [], ops, x, |ops|)
  {
    hide Port.Linked, Port.Trace, Port.Pending, Port.Broken, LooksSame, HoldsAll, Run, Takes, Small;
    var a := OpenPort(target, linkA, blasterA);
    var b := OpenPort(target, linkB, blasterB);
    SmallTaken(a, ops);
    SmallTaken(b, ops);
    x, y := Compare(a, lateA, b, lateB, ops);
  }

  /** What either adapter takes. */
  ghost predicate Small(op: Op)
    requires op.Valid()
  {
    match op
    case Tms(_, n) => n > 0
    case Shift(_, n, flipTms, _) =>
      3 + Bulk(n, flipTms) / 8 < 8192 && BlasterChip.RawLength(n, flipTms) <= 4096
  }

  lemma SmallTaken(port: Port, ops: seq<Op>)
    requires forall op | op in ops :: op.Valid() && Small(op)
    ensures Takes(port, ops)
  {
  }
}
