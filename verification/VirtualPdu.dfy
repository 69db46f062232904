/**
 The virtual PDU: the server of ansible/roles/vpdu/files/vpdu.py, which runs a virtual machine for
 every outlet that is on, and the driver of pdu/drivers/virtual.py that talks to it in 32-bit words.
 */
module VirtualPdu {
  import opened Common
  import opened PduPorts

  // ---------------------------------------------------------------------------
  // The wire

  datatype Op = GetCount | TurnOn | TurnOff | Status

  function Code(op: Op): bv32 {
    match op
    case GetCount => 0
    case TurnOn => 1
    case TurnOff => 2
    case Status => 3
  }

  /** The command word that the driver sends. */
  function Encode(port: bv32, op: Op): bv32 {
    (port << 2) | Code(op)
  }

  datatype Request = Request(op: Op, port: bv32, shutdown: bool, reserved: bv32)

  /** The bit tests of `handle`, in the order in which it makes them. */
  function DecodeOp(command: bv32): Op {
    if command & 0x03 == 3 then Status
    else if command & 0x01 != 0 then TurnOn
    else if command & 0x02 != 0 then TurnOff
    else GetCount
  }

  function Decode(payload: bv32): Request {
    Request(DecodeOp(payload & 0x03), (payload & 0x1FFC) >> 2,
            (payload & 0x2000) == 0x2000, (payload & 0xFFFFC000) >> 13)
  }

  datatype Word = Word(b3: bv32, b2: bv32, b1: bv32, b0: bv32)

  /** `to_bytes(4, byteorder='big')`. */
  function ToBytes(w: bv32): Word {
    Word(w >> 24, (w >> 16) & 0xFF, (w >> 8) & 0xFF, w & 0xFF)
  }

  function FromBytes(w: Word): bv32 {
    (w.b3 << 24) | (w.b2 << 16) | (w.b1 << 8) | w.b0
  }

  lemma BytesRoundTrip(w: bv32)
    ensures FromBytes(ToBytes(w)) == w
  {
  }

  /** What the masks make of a port number and a two-bit code. */
  lemma MasksSplit(port: bv32, code: bv32)
    requires port < 0x4000_0000 && code < 4
    ensures var w := (port << 2) | code;
            && w & 0x03 == code && (w & 0x1FFC) >> 2 == port & 0x7FF
            && (w & 0x2000) == (port & 0x800) << 2 && w & 0xFFFFC000 == (port & 0xFFFFF000) << 2
  {
  }

  lemma ElevenBits(port: bv32)
    requires port < 0x4000_0000
    ensures port < 0x800 <==> port & 0x7FF == port
    ensures port < 0x800 ==> (port & 0x800) << 2 == 0 && ((port & 0xFFFFF000) << 2) >> 13 == 0
  {
  }

  lemma CodeDecodes(op: Op)
    ensures Code(op) < 4 && DecodeOp(Code(op)) == op
  {
    match op
    case GetCount =>
    case TurnOn =>
    case TurnOff =>
    case Status =>
  }

  lemma FieldsOf(port: bv32, op: Op)
    requires port < 0x4000_0000
    ensures Decode(Encode(port, op)) == Request(op, port & 0x7FF, (port & 0x800) << 2 == 0x2000,
                                                ((port & 0xFFFFF000) << 2) >> 13)
  {
    CodeDecodes(op);
    MasksSplit(port, Code(op));
  }

  lemma DecodeEncode(port: bv32, op: Op)
    requires port < 0x4000_0000
    ensures Decode(Encode(port, op)) == Request(op, port, false, 0) <==> port < 0x800
  {
    FieldsOf(port, op);
    ElevenBits(port);
  }

  /** The server reads back what the driver meant exactly for the port numbers of eleven bits. */
  lemma DecodeExactly(port: bv32, op: Op)
    requires port < 0x4000_0000
    ensures Decode(FromBytes(ToBytes(Encode(port, op)))) == Request(op, port, false, 0) <==> port < 0x800
  {
    BytesRoundTrip(Encode(port, op));
    DecodeEncode(port, op);
  }

  /** Port 2048 would be taken for port 0, with the request to shut the server down. */
  lemma Port2048IsPort0(op: Op)
    ensures Decode(Encode(0x800, op)) == Request(op, 0, true, 0)
  {
  }

  // ---------------------------------------------------------------------------
  // The server

  datatype Power = OutletOn | OutletOff

  /** An outlet, with how many virtual machines were started and stopped for it. */
  datatype Outlet = Outlet(state: Power, started: nat, stopped: nat)

  type Outlets = seq<Outlet>

  const FRESH := Outlet(OutletOff, 0, 0)

  function TurnedOn(o: Outlet): Outlet {
    if o.state == OutletOn then o else Outlet(OutletOn, o.started + 1, o.stopped)
  }

  function TurnedOff(o: Outlet): Outlet {
    if o.state == OutletOff then o else Outlet(OutletOff, o.started, o.stopped + 1)
  }

  class Server {
    var outlets: Outlets
    var shuttingDown: bool

    constructor (outlets: Outlets)
      ensures this.outlets == outlets && !shuttingDown
    {
      this.outlets, shuttingDown := outlets, false;
    }

    /** `handle`: the byte it answers, or nothing when it raises and the connection just closes. */
    method Handle(word: Word) returns (answer: Option<bv32>)
      modifies this
      ensures Served(answer, outlets) == Serve(old(outlets), Decode(FromBytes(word)))
      ensures var r := Decode(FromBytes(word));
              shuttingDown == (old(shuttingDown) || (r.shutdown && r.reserved == 0))
    {
      var r := Decode(FromBytes(word));
      if r.reserved != 0 {
        return None;
      }
      if r.shutdown {
        shuttingDown := true;
      }
      answer := Operate(r);
    }

    method Operate(r: Request) returns (answer: Option<bv32>)
      requires r.reserved == 0
      modifies this`outlets
      ensures Served(answer, outlets) == Serve(old(outlets), r)
    {
      if r.port as nat >= |outlets| {
        return Some(0);
      }
      var port := r.port as nat;
      var outlet := outlets[port];
      assert outlets[port := outlet] == outlets;
      match r.op
      case Status =>
        answer := Some(StateCode(outlet.state));
      case TurnOn =>
        if outlet.state != OutletOn {
          outlets := outlets[port := Outlet(OutletOn, outlet.started + 1, outlet.stopped)];
        }
        answer := Some(1);
      case TurnOff =>
        if outlet.state != OutletOff {
          outlets := outlets[port := Outlet(OutletOff, outlet.started, outlet.stopped + 1)];
        }
        answer := Some(1);
      case GetCount =>
        answer := CountAnswer(outlets);
    }
  }

  function StateCode(p: Power): bv32 {
    match p case OutletOn => 3 case OutletOff => 4
  }

  /** `struct.pack('!B', len(OUTLETS))`, which raises when the count does not fit a byte. */
  function CountAnswer(outlets: Outlets): Option<bv32> {
    if |outlets| < 256 then Some(|outlets| as bv32) else None
  }

  datatype Served = Served(answer: Option<bv32>, outlets: Outlets)

  function Serve(outlets: Outlets, r: Request): Served {
    if r.reserved != 0 then Served(None, outlets) else ServePort(outlets, r.op, r.port as nat)
  }

  function ServePort(outlets: Outlets, op: Op, port: nat): Served {
    if port >= |outlets| then Served(Some(0), outlets)
    else
      match op
      case Status => Served(Some(StateCode(outlets[port].state)), outlets)
      case TurnOn => Served(Some(1), outlets[port := TurnedOn(outlets[port])])
      case TurnOff => Served(Some(1), outlets[port := TurnedOff(outlets[port])])
      case GetCount => Served(CountAnswer(outlets), outlets)
  }

  /**
   A request changes at most the outlet of its port, and only to turn it on or off. It is answered 0 for a
   port that does not exist, and 1 for one that it turns on or off.
   */
  lemma RequestsAreConfined(outlets: Outlets, op: Op, port: nat, k: nat)
    requires k < |outlets|
    ensures var served := ServePort(outlets, op, port);
            && |served.outlets| == |outlets|
            && (served.outlets[k] != outlets[k] ==> port == k && (op == TurnOn || op == TurnOff))
            && (port >= |outlets| ==> served.answer == Some(0))
            && (port < |outlets| && (op == TurnOn || op == TurnOff) ==> served.answer == Some(1))
  {
  }

  // ---------------------------------------------------------------------------
  // The driver

  /** A command to an outlet, as the server carries it out. */
  function Commanded(o: Outlet, state: PduState): Outlet {
    match state
    case UNKNOWN => o
    case OFF => TurnedOff(o)
    case ON => TurnedOn(o)
    case REBOOT => TurnedOn(TurnedOff(o))
  }

  function Read(o: Outlet): PduState {
    if o.state == OutletOn then ON else OFF
  }

  /** The ports that a server can advertise: their count is one byte. */
  type Port = p: bv32 | p < 0x100

  class Driver {
    const server: Server

    constructor (server: Server)
      ensures this.server == server
    {
      this.server := server;
    }

    /** Sends one command for an outlet that the server advertised and waits for the answer. */
    method Send(port: Port, op: Op) returns (answer: Option<bv32>)
      modifies server
      ensures Served(answer, server.outlets) == Serve(old(server.outlets), Request(op, port, false, 0))
      ensures server.shuttingDown == old(server.shuttingDown)
    {
      DecodeExactly(port, op);
      answer := server.Handle(ToBytes(Encode(port, op)));
    }

    /** Turns outlet `k`, which has this port number, on or off, and nothing else; the answer says so. */
    method Turn(port: Port, ghost k: nat, on: bool) returns (ok: bool)
      requires port as nat == k < |server.outlets|
      modifies server
      ensures ok && server.shuttingDown == old(server.shuttingDown)
      ensures var o := old(server.outlets)[k];
              server.outlets == old(server.outlets)[k := if on then TurnedOn(o) else TurnedOff(o)]
    {
      var answer := Send(port, if on then TurnOn else TurnOff);
      ok := answer == Some(1);
    }

    /** The command reaches its outlet and nothing else; the assertions on the answers hold. */
    method SetPortState(port: Port, state: PduState) returns (ok: bool)
      requires port as nat < |server.outlets|
      modifies server
      ensures ok && server.shuttingDown == old(server.shuttingDown)
      ensures server.outlets == old(server.outlets)[port as nat := Commanded(old(server.outlets)[port as nat], state)]
    {
      ghost var k: nat := port as nat;
      ghost var before := server.outlets;
      assert before[k := before[k]] == before;
      ok := true;
      if state == OFF || state == REBOOT {
        ok := Turn(port, k, false);
      }
      if ok && (state == ON || state == REBOOT) {
        ok := Turn(port, k, true);
      }
    }

    /** The first request of a driver: how many ports there are, or nothing when the count does not fit a byte. */
    method CountPorts() returns (answer: Option<bv32>)
      modifies server
      ensures server.outlets == old(server.outlets) && server.shuttingDown == old(server.shuttingDown)
      ensures answer == if |server.outlets| < 256 then Some(|server.outlets| as bv32) else None
    {
      answer := Send(0, GetCount);
    }

    method GetPortState(port: Port) returns (state: Option<PduState>)
      requires port as nat < |server.outlets|
      modifies server
      ensures server.outlets == old(server.outlets) && server.shuttingDown == old(server.shuttingDown)
      ensures state == Some(Read(server.outlets[port as nat]))
    {
      var answer := Send(port, Status);
      state := if answer == Some(3) then Some(ON) else if answer == Some(4) then Some(OFF)
               else if answer == Some(5) then Some(PduState.UNKNOWN) else None;
    }
  }

  // ---------------------------------------------------------------------------
  // The PDU is a map

  datatype Command = Command(port: nat, state: PduState)

  function Run(count: nat, commands: seq<Command>): (outlets: Outlets)
    ensures |outlets| == count
  {
    if |commands| == 0 then seq(count, _ => FRESH)
    else
      var before, c := Run(count, commands[..|commands| - 1]), commands[|commands| - 1];
      if c.port < count then before[c.port := Commanded(before[c.port], c.state)] else before
  }

  /** The last state commanded for a port: off at first, and on after a reboot. */
  function LastCommanded(commands: seq<Command>, port: nat): PduState {
    if |commands| == 0 then OFF
    else
      var c := commands[|commands| - 1];
      if c.port != port || c.state == PduState.UNKNOWN then LastCommanded(commands[..|commands| - 1], port)
      else After(c.state)
  }

  /** How often the commands power a port up anew: when it was off, and at every reboot. */
  function PowerUps(commands: seq<Command>, port: nat): nat {
    if |commands| == 0 then 0
    else
      var front, c := commands[..|commands| - 1], commands[|commands| - 1];
      PowerUps(front, port)
      + if c.port == port && (c.state == REBOOT || (c.state == ON && LastCommanded(front, port) == OFF)) then 1 else 0
  }

  /**
   After any commands, every outlet reads as the last state commanded for it, and exactly one
   virtual machine more was started than stopped if it is on, none if it is off; and one was started for
   every power-up, a reboot included.
   */
  lemma {:induction false} PduIsMap(count: nat, commands: seq<Command>, port: nat)
    requires port < count
    ensures var o := Run(count, commands)[port];
            && Read(o) == LastCommanded(commands, port)
            && o.started - o.stopped == (if Read(o) == ON then 1 else 0)
            && o.started == PowerUps(commands, port)
  {
    if |commands| > 0 {
      PduIsMap(count, commands[..|commands| - 1], port);
    }
  }
}
