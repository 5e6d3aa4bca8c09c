/** A run of host and device from the start, on which the counterexamples are built: connect, ask, answer. */
module Witness {
  import opened Mux
  import MuxDecoder
  import opened MuxStream
  import opened Application
  import opened Duplex
  import opened DuplexRuns
  import opened SerialLine
  import opened Protocol
  import D = Delivery
  import Json
  import T = Transmission

  const IDENTITY := Json.Object([Json.Field(PROTOCOL_KEY, Json.Number(ONE))])
  const RESULT := Json.Bool(true)
  const COMMAND := Json.Command([0x61], Json.Null)

  /** A parser that knows the two texts the device sends. */
  function Parse(payload: seq<bv8>): Option<Json.Value> {
    if payload == Json.Print(IDENTITY) then Some(IDENTITY)
    else if payload == Json.Print(RESULT) then Some(RESULT)
    else None
  }

  const ENV := Env((digits: seq<bv8>) => true, Parse)

  function Asked(): Frame {
    Frame(REQUEST, 1, 1, Json.Print(Json.AsObject(COMMAND)))
  }

  function Acknowledged(): Frame {
    Frame(HELLO_ACK, 1, 0, Json.Print(IDENTITY))
  }

  function Answered(): Frame {
    Frame(RESPONSE, 1, 1, Json.Print(RESULT))
  }

  function Carrying(key: string, lane: Lane, f: Frame): Transfer {
    Transfer(key, lane, 10, [Wire(f)], 0, Json.Null)
  }

  const CONNECTED := DuplexState(Some(SessionState(1, 1, MuxDecoder.FRESH, IDENTITY, true)), None, [])
  const WAITING := DuplexState(Some(SessionState(1, 2, MuxDecoder.FRESH, IDENTITY, true)),
                               Some(Pending("r", 10, RESPONSE, 1)), [])

  // ---------- texts ----------

  lemma {:induction false} EscapeLength(s: seq<bv8>)
    ensures |Json.Escape(s)| <= 6 * |s|
  {
    if s != [] {
      EscapeLength(s[1..]);
    }
  }

  lemma CommandText()
    ensures 0 < |Asked().payload| <= 100 && Encodable(Asked()) && |Wire(Asked())| <= 256
  {
    hide Json.Escape;
    hide Wire;
    EscapeLength(Json.METHOD_KEY);
    EscapeLength(Json.PARAMS_KEY);
    EscapeLength(COMMAND.method_);
    var fields := Json.AsObject(COMMAND).fields;
    assert fields[1..] == [fields[1]];
    assert |Json.PrintField(fields[0])| <= 50;
    assert |Json.PrintField(fields[1])| <= 44;
    assert Json.PrintFields(fields[1..]) == Json.PrintField(fields[1]);
    assert |Json.PrintFields(fields)| <= 95;
    assert Json.Print(Json.AsObject(COMMAND)) == [0x7b] + (Json.PrintFields(fields) + [0x7d]);
    ShortWire(Asked());
  }

  lemma IdentityText()
    ensures |Json.Print(IDENTITY)| <= 100 && Json.Print(IDENTITY) != Json.Print(RESULT)
  {
    hide Json.Escape;
    EscapeLength(PROTOCOL_KEY);
    var fields := IDENTITY.fields;
    assert |Json.PrintField(fields[0])| <= 60;
    assert Json.PrintFields(fields) == Json.PrintField(fields[0]);
    assert Json.Print(IDENTITY) == [0x7b] + (Json.PrintFields(fields) + [0x7d]);
    assert Json.Print(IDENTITY)[0] == 0x7b && Json.Print(RESULT)[0] == 0x74;
  }

  lemma ShortWire(f: Frame)
    requires |f.payload| <= 100
    ensures |Wire(f)| <= 256
  {
    D.StuffedLength(Body(f));
  }

  // ---------- one step after the other ----------

  function Extended(steps: seq<Step>, step: Step, env: Env): (r: seq<Step>)
    requires Possible(steps, env) && Enabled(WorldAfter(steps, env), step, env)
    ensures Possible(r, env) && WorldAfter(r, env) == Next(WorldAfter(steps, env), step, env)
  {
    assert (steps + [step])[..|steps + [step]| - 1] == steps;
    steps + [step]
  }

  /** One more step of a run. */
  lemma Go(steps: seq<Step>, w: World, step: Step) returns (longer: seq<Step>, w': World)
    requires Possible(steps, ENV) && w == WorldAfter(steps, ENV) && CanHappen(w, step)
    requires step.HostCalls? ==> TypesNoCopy(w, step.call, ENV)
    ensures Possible(longer, ENV) && w' == WorldAfter(longer, ENV) && w' == Next(w, step, ENV)
  {
    longer := Extended(steps, step, ENV);
    w' := Next(w, step, ENV);
  }

  /** What types nothing types no copy. */
  lemma NothingTypedNoCopy(w: World, c: Call)
    requires Inv(w) && Allowed(w.host, c) && TypedBy(w, c, ENV) == []
    ensures TypesNoCopy(w, c, ENV)
  {
    hide Ids;
    hide TypedFrames;
    hide QueuedFrames;
    hide LineInv;
    hide FreshInv;
    hide PendingInv;
    hide DeviceInv;
    hide DownInv;
    hide Left;
    hide Apply;
    NoWireFrames();
    FewerDistinct(Places(w), Others(w, Written(w.host, c, ENV)));
  }

  lemma WritesNothing(w: World, c: Call)
    requires Inv(w) && CanHappen(w, HostCalls(c)) && Apply(w.host, c, ENV).1.written == []
    ensures TypesNoCopy(w, c, ENV)
    ensures var w' := Next(w, HostCalls(c), ENV); w'.line == w.line && w'.up == w.up
  {
    hide Apply;
    hide Carry;
    hide Arrived;
    hide TypedFrames;
    hide Inv;
    CarryNothing(w.line, FrontIsTyped(w));
    NothingTypedNoCopy(w, c);
  }

  /** A tick that writes a whole transfer. */
  lemma WholeWrite(s: DuplexState, key: string, lane: Lane, f: Frame, env: Env)
    requires s.tx == [Carrying(key, lane, f)] && |Wire(f)| <= 256
    requires s.pending.Some? ==> s.pending.value.deadline == 10
    ensures var c := TickCall([0], Accepted(|Wire(f)|), 0);
            && Allowed(s, c)
            && Apply(s, c, env).0 == s.(tx := [])
            && Apply(s, c, env).1.started == [] && Apply(s, c, env).1.written == Wire(f)
  {
    hide Body;
    hide Stuff;
    assert s.tx[1..] == [];
    assert Wire(f)[0..|Wire(f)|] == Wire(f);
    assert s.tx[0].frames[1..] == [];
  }

  predicate Idle(line: Line) {
    line == SILENT || line == Line(MuxDecoder.READY, false)
  }

  /** The decoder at the other end reports what was carried. */
  lemma WholeArrives(line: Line, f: Frame)
    requires Encodable(f) && Idle(line)
    ensures Arrived(line, Wire(f)) == [f]
    ensures Carry(line, Wire(f), false) == Line(MuxDecoder.READY, false) && TypedFrames(line, Wire(f), false) == []
    ensures f in TypedFrames(line, Wire(f), true)
  {
    hide Arrived;
    hide Carry;
    hide TypedFrames;
    hide Wire;
    T.WireNotEmpty(f);
    FrameArrives(line, f, 0, |Wire(f)|);
    FrameEndsClean(f);
    NothingBegun();
    assert Wire(f)[0..|Wire(f)|] == Wire(f);
    TypedBytes(line, Wire(f));
    assert f in Arrived(line, Wire(f));
  }

  lemma NothingBegun()
    ensures Ending(MuxDecoder.FRESH) == [] && Ending(MuxDecoder.READY) == []
  {
  }

  /** The host's own frames reach the other side. */
  lemma HostTick(w: World, key: string, f: Frame)
    requires Inv(w) && w.host.tx == [Carrying(key, ApplicationLane, f)] && Encodable(f) && |Wire(f)| <= 256
    requires w.host.pending.Some? ==> w.host.pending.value.deadline == 10
    requires Idle(w.line) && key !in w.typing
    ensures var c := TickCall([0], Accepted(|Wire(f)|), 0);
            && CanHappen(w, HostCalls(c)) && TypesNoCopy(w, c, ENV)
            && Next(w, HostCalls(c), ENV)
            == w.(host := w.host.(tx := []), line := Line(MuxDecoder.READY, false), up := w.up + [f])
  {
    hide Apply;
    hide Arrived;
    hide Carry;
    hide TypedFrames;
    hide Wire;
    hide Inv;
    hide TypesNoCopy;
    WholeWrite(w.host, key, ApplicationLane, f, ENV);
    WholeArrives(w.line, f);
    NothingTypedNoCopy(w, TickCall([0], Accepted(|Wire(f)|), 0));
  }

  /** And so do the device's. */
  lemma DeviceSends(w: World, f: Frame)
    requires w.device.control == [f] && f.session == w.device.session && Encodable(f) && Idle(w.down)
    ensures var step := DeviceTransmits(|Wire(f)|);
            && CanHappen(w, step)
            && Next(w, step, ENV)
            == w.(device := w.device.(control := []), down := Line(MuxDecoder.READY, false), sent := w.sent + {f})
  {
    hide Arrived;
    hide Carry;
    hide TypedFrames;
    hide Wire;
    WholeArrives(w.down, f);
    assert Wire(f)[..|Wire(f)|] == Wire(f);
    assert SetOf([f]) == {f} && SetOf([]) == {};
    assert w.device.control[1..] == [];
  }

  // ---------- connecting ----------

  lemma Connects()
    ensures Possible([], ENV) && WorldAfter([], ENV) == START
    ensures var c := Connect("c", 10, 1);
            && CanHappen(START, HostCalls(c)) && TypesNoCopy(START, c, ENV)
            && Next(START, HostCalls(c), ENV)
            == START.(host := DuplexState(Some(Begin(1)), Some(Pending("c", 10, HELLO_ACK, 0)),
                                          [Carrying("c", ApplicationLane, HelloFrame(1))]),
                      issued := {1})
  {
    hide Wire;
    hide Carry;
    hide Arrived;
    hide TypedFrames;
    hide TypesNoCopy;
    hide Inv;
    StartInv();
    WritesNothing(START, Connect("c", 10, 1));
  }

  /** The device answers a hello. */
  lemma Acknowledges(w: World)
    requires w.up == [HelloFrame(1)] && w.device == BOOTED
    ensures var step := DeviceReceives(0, Json.Print(IDENTITY));
            && CanHappen(w, step)
            && Next(w, step, ENV)
            == w.(up := [], device := Device(1, [], None, [Acknowledged()]), produced := w.produced + {Acknowledged()})
  {
    hide Json.Print;
  }

  lemma Accepts(w: World)
    requires w.host == DuplexState(Some(Begin(1)), Some(Pending("c", 10, HELLO_ACK, 0)), []) && Acknowledged() in w.sent
    ensures var step := HostReceives([MuxDecoder.FrameItem(Acknowledged())], 0, 0);
            CanHappen(w, step) && Next(w, step, ENV) == w.(host := CONNECTED)
  {
    hide Json.Print;
    var items := [MuxDecoder.FrameItem(Acknowledged())];
    assert items[..0] == [];
    assert SpeaksProtocolOne(IDENTITY);
    assert Handle(items, 1, false, Some(Expected(HELLO_ACK, 0)), ENV.parse)
        == Progress([], Some(Answer(IDENTITY)), false, false);
  }

  lemma Handshake() returns (steps: seq<Step>, w: World)
    ensures Possible(steps, ENV) && w == WorldAfter(steps, ENV)
    ensures w.host == CONNECTED && w.typing == {} && w.up == []
    ensures w.line == Line(MuxDecoder.READY, false) && w.down == Line(MuxDecoder.READY, false)
    ensures w.device == Device(1, [], None, []) && w.handled == [] && w.produced == {Acknowledged()}
  {
    hide Wire;
    hide WorldAfter;
    hide Possible;
    hide CanHappen;
    hide TypesNoCopy;
    hide Next;
    hide Inv;
    hide Json.Print;
    var hello := HelloFrame(1);
    ShortWire(hello);
    IdentityText();
    Connects();
    steps, w := Go([], START, HostCalls(Connect("c", 10, 1)));
    RunKeeps(steps, ENV);
    HostTick(w, "c", hello);
    steps, w := Go(steps, w, HostCalls(TickCall([0], Accepted(|Wire(hello)|), 0)));
    Acknowledges(w);
    steps, w := Go(steps, w, DeviceReceives(0, Json.Print(IDENTITY)));
    DeviceSends(w, Acknowledged());
    steps, w := Go(steps, w, DeviceTransmits(|Wire(Acknowledged())|));
    Accepts(w);
    steps, w := Go(steps, w, HostReceives([MuxDecoder.FrameItem(Acknowledged())], 0, 0));
  }

  // ---------- asking ----------

  lemma Asks(w: World)
    requires Inv(w) && w.host == CONNECTED && w.typing == {}
    ensures var c := Request("r", COMMAND, 10);
            && CanHappen(w, HostCalls(c)) && TypesNoCopy(w, c, ENV)
            && Next(w, HostCalls(c), ENV)
            == w.(host := WAITING.(tx := [Carrying("r", ApplicationLane, Asked())]),
                  submitted := w.submitted[Id(1, 1) := Submission("r", Asked().payload)])
  {
    hide Wire;
    hide Carry;
    hide Arrived;
    hide TypedFrames;
    hide TypesNoCopy;
    hide Inv;
    hide Json.Print;
    CommandText();
    assert Json.Payload(COMMAND, ENV.inRange) == Some(Asked().payload);
    assert PreparedRequest(w.host.session.value, COMMAND, ENV.inRange).1 == Ready(Asked());
    WritesNothing(w, Request("r", COMMAND, 10));
  }

  /** The request is on its way to a device that still holds the session. */
  lemma Asking() returns (steps: seq<Step>, w: World)
    ensures Possible(steps, ENV) && w == WorldAfter(steps, ENV)
    ensures w.host == WAITING && w.typing == {} && w.up == [Asked()]
    ensures w.line == Line(MuxDecoder.READY, false) && w.down == Line(MuxDecoder.READY, false)
    ensures w.device == Device(1, [], None, []) && w.handled == [] && w.produced == {Acknowledged()}
  {
    hide Wire;
    hide WorldAfter;
    hide Possible;
    hide CanHappen;
    hide TypesNoCopy;
    hide Next;
    hide Inv;
    hide Json.Print;
    steps, w := Handshake();
    CommandText();
    RunKeeps(steps, ENV);
    Asks(w);
    steps, w := Go(steps, w, HostCalls(Request("r", COMMAND, 10)));
    RunKeeps(steps, ENV);
    HostTick(w, "r", Asked());
    steps, w := Go(steps, w, HostCalls(TickCall([0], Accepted(|Wire(Asked())|), 0)));
  }
}
