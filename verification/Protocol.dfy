/**
 Host and device together: the scheduler of src/duplex.rs, the three tasks of idf_remote.c and the wire between
 them. The bytes each side writes go through the other side's decoder one after the other. The frames it reports to
 the device may be lost or overtake each other before the device acts on them; those it reports to the host may also
 be seen twice. Bytes damaged on the way, and those a device misses while it resets, count as lost frames.
 */
module Protocol {
  import opened Mux
  import opened MuxDecoder
  import opened MuxStream
  import opened Application
  import opened Duplex
  import opened DuplexRuns
  import opened SerialLine
  import D = Delivery
  import Json
  import T = Transmission

  datatype Submission = Submission(key: string, payload: seq<bv8>)

  const REQUEST_QUEUE := 4
  const CONTROL_QUEUE := 8

  datatype Device = Device(
    session: bv64,
    requests: seq<Frame>,
    running: Option<Frame>,
    control: seq<Frame>)

  /**
   typing holds the keys of the inputs that were started outside a session; down is the wire from the device, sent
   what a decoder at its end has reported, and printed the frames among them that console text was printed into.
   */
  datatype World = World(
    host: DuplexState,
    line: Line,
    typing: set<string>,
    up: seq<Frame>,
    device: Device,
    down: Line,
    sent: set<Frame>,
    printed: set<Frame>,
    // history
    issued: set<bv64>,
    submitted: map<Id, Submission>,
    handled: seq<Frame>,
    produced: set<Frame>)

  const BOOTED := Device(0, [], None, [])
  const START := World(EMPTY, SILENT, {}, [], BOOTED, SILENT, {}, {}, {}, map[], [], {})

  // ---------- device tasks ----------

  /** enqueue: a full control queue drops the frame. */
  function Enqueue(d: Device, f: Frame): Device {
    if |d.control| < CONTROL_QUEUE then d.(control := d.control + [f]) else d
  }

  function Produce(w: World, d: Device, f: Frame): World {
    w.(device := Enqueue(d, f), produced := w.produced + {f})
  }

  function ErrorFrame(f: Frame, text: seq<bv8>): Frame {
    Frame(ERROR, f.session, f.request, text)
  }

  /** rx_task on one decoded frame; text is the identity or the error message it prints. */
  function Receive(w: World, f: Frame, text: seq<bv8>): World {
    var d := w.device;
    if f.kind == HELLO && f.request == 0 && f.payload == [] then
      Produce(w, d.(session := f.session), Frame(HELLO_ACK, f.session, 0, text))
    else if f.session == d.session && f.kind == REQUEST && f.request != 0 then
      if |d.requests| < REQUEST_QUEUE then w.(device := d.(requests := d.requests + [f]))
      else Produce(w, d, ErrorFrame(f, text))
    else w
  }

  /** command_task up to the call of the handler; wellFormed is the outcome of parsing. */
  function Dispatch(w: World, wellFormed: bool, text: seq<bv8>): World
    requires w.device.running.None? && w.device.requests != []
  {
    var f := w.device.requests[0];
    var d := w.device.(requests := w.device.requests[1..]);
    if f.session != d.session then w.(device := d)
    else if !Json.Scan(f.payload, false, 0) || !wellFormed then Produce(w, d, ErrorFrame(f, text))
    else w.(device := d.(running := Some(f)), handled := w.handled + [f])
  }

  /** command_task after the handler returned: a response if it fits into a frame, or an error. */
  function Finish(w: World, ok: bool, text: seq<bv8>): World
    requires w.device.running.Some?
  {
    var f := w.device.running.value;
    var d := w.device.(running := None);
    Produce(w, d, if ok && |text| <= MAX_PAYLOAD then Frame(RESPONSE, f.session, f.request, text)
                  else ErrorFrame(f, text))
  }

  function SetOf(frames: seq<Frame>): set<Frame> {
    set f | f in frames
  }

  /** Bytes on their way to the host; raw ones are no frame of the device's. */
  function Output(w: World, bytes: seq<bv8>, raw: bool): World {
    w.(down := Carry(w.down, bytes, raw),
       sent := w.sent + SetOf(Arrived(w.down, bytes)),
       printed := w.printed + SetOf(TypedFrames(w.down, bytes, raw)))
  }

  /** mux_encode. */
  function Encoded(f: Frame): seq<bv8> {
    if Encodable(f) then Wire(f) else []
  }

  function NextControl(d: Device): seq<bv8>
    requires d.control != []
  {
    if d.control[0].session == d.session then Encoded(d.control[0]) else []
  }

  /** tx_task on the next control frame: stale sessions are dropped, and a stalled driver takes only n bytes. */
  function Transmit(w: World, n: nat): World
    requires w.device.control != [] && n <= |NextControl(w.device)|
  {
    Output(w.(device := w.device.(control := w.device.control[1..])), NextControl(w.device)[..n], false)
  }

  /** Console text is a frame in a session, and goes out as it is without one. */
  function ConsoleBytes(d: Device, text: seq<bv8>): seq<bv8> {
    if d.session == 0 then text else Encoded(ConsoleFrame(d.session, text))
  }

  /** tx_task on a piece of console output, of which the driver takes n bytes. */
  function PrintText(w: World, text: seq<bv8>, n: nat): World
    requires n <= |ConsoleBytes(w.device, text)|
  {
    Output(w, ConsoleBytes(w.device, text)[..n], w.device.session == 0)
  }

  // ---------- the whole system ----------

  datatype Step =
    | HostCalls(call: Call)
    | HostReceives(items: seq<Decoded>, before: nat, after: nat)
    | FrameLost(i: nat)
    | DeviceReceives(i: nat, text: seq<bv8>)
    | DeviceDispatches(wellFormed: bool, text: seq<bv8>)
    | DeviceFinishes(ok: bool, text: seq<bv8>)
    | DeviceTransmits(n: nat)
    | DevicePrints(text: seq<bv8>, n: nat)
    | DevicePublishes(text: seq<bv8>)
    | DeviceResets

  predicate NotQueued(key: string, tx: seq<Transfer>) {
    forall i :: 0 <= i < |tx| ==> tx[i].key != key
  }

  /** Nonces are never drawn twice, and the key of typed text is not used for anything else. */
  predicate CanHappen(w: World, step: Step) {
    match step
    case HostCalls(c) =>
      && Allowed(w.host, c)
      && !c.FeedCall?
      && (c.Connect? ==> c.nonce !in w.issued && c.key !in w.typing)
      && (c.Request? ==> c.key !in w.typing)
      && (c.Input? && w.host.session.Some? ==> c.key !in w.typing)
      && (c.Input? && w.host.session.None? ==> NotQueued(c.key, w.host.tx))
    case HostReceives(items, _, _) =>
      w.host.session.Some? && forall i :: 0 <= i < |items| && items[i].FrameItem? ==> items[i].frame in w.sent
    case FrameLost(i) => i < |w.up|
    case DeviceReceives(i, _) => i < |w.up|
    case DeviceDispatches(wellFormed, _) =>
      w.device.running.None? && w.device.requests != [] && (wellFormed ==> w.device.requests[0].payload != [])
    case DeviceFinishes(_, _) => w.device.running.Some?
    case DeviceTransmits(n) => w.device.control != [] && n <= |NextControl(w.device)|
    case DevicePrints(text, n) => n <= |ConsoleBytes(w.device, text)|
    case DevicePublishes(_) => w.device.session != 0
    case DeviceResets => true
  }

  /** The front transfer is typed text. */
  predicate FrontIsTyped(w: World) {
    w.host.tx != [] && w.host.tx[0].key in w.typing
  }

  function Written(s: DuplexState, c: Call, env: Env): seq<bv8>
    requires Allowed(s, c)
  {
    Apply(s, c, env).1.written
  }

  /** The frames that a host call completes with text typed outside a session. */
  function TypedBy(w: World, c: Call, env: Env): seq<Frame>
    requires Allowed(w.host, c)
  {
    TypedFrames(w.line, Written(w.host, c, env), FrontIsTyped(w))
  }

  /**
   Text typed outside a session completes no request that was never submitted, and none that is also on its way, in
   the device, or handled already.
   */
  predicate TypesNoCopy(w: World, c: Call, env: Env)
    requires Allowed(w.host, c)
  {
    && AllGenuine(TypedBy(w, c, env), w.submitted)
    && Distinct(Others(w, Written(w.host, c, env)) + Ids(TypedBy(w, c, env)))
  }

  predicate Enabled(w: World, step: Step, env: Env) {
    CanHappen(w, step) && (step.HostCalls? ==> TypesNoCopy(w, step.call, env))
  }

  function Without(frames: seq<Frame>, i: nat): seq<Frame>
    requires i < |frames|
  {
    frames[..i] + frames[i + 1..]
  }

  function Submit(w: World, c: Call, started: bool, env: Env): map<Id, Submission> {
    if c.Request? && started && w.host.session.Some? then
      var prepared := PreparedRequest(w.host.session.value, c.command, env.inRange).1;
      if prepared.Ready? then w.submitted[IdOf(prepared.frame) := Submission(c.key, prepared.frame.payload)]
      else w.submitted
    else w.submitted
  }

  function Typing(w: World, c: Call, started: bool): set<string> {
    if c.Input? && started && w.host.session.None? then w.typing + {c.key} else w.typing
  }

  function HostStep(w: World, c: Call, env: Env): World
    requires Allowed(w.host, c)
  {
    var (host, e) := Apply(w.host, c, env);
    w.(host := host,
       line := Carry(w.line, e.written, FrontIsTyped(w)),
       typing := Typing(w, c, e.started != []),
       up := w.up + Arrived(w.line, e.written),
       issued := if c.Connect? then w.issued + {c.nonce} else w.issued,
       submitted := Submit(w, c, e.started != [], env))
  }

  function Next(w: World, step: Step, env: Env): World
    requires CanHappen(w, step)
  {
    match step
    case HostCalls(c) => HostStep(w, c, env)
    case HostReceives(items, before, after) => w.(host := FeedItemsStep(w.host, items, before, after, env.parse).0)
    case FrameLost(i) => w.(up := Without(w.up, i))
    case DeviceReceives(i, text) => Receive(w.(up := Without(w.up, i)), w.up[i], text)
    case DeviceDispatches(wellFormed, text) => Dispatch(w, wellFormed, text)
    case DeviceFinishes(ok, text) => Finish(w, ok, text)
    case DeviceTransmits(n) => Transmit(w, n)
    case DevicePrints(text, n) => PrintText(w, text, n)
    case DevicePublishes(text) =>
      w.(device := Enqueue(w.device, Frame(EVENT, w.device.session, 0, text)))
    case DeviceResets => w.(device := BOOTED)
  }

  // ---------- requests on their way ----------

  function WireFrames(wires: seq<seq<bv8>>): seq<Frame> {
    if wires == [] then []
    else WireFrames(wires[..|wires| - 1]) +
         match DecodeWire(wires[|wires| - 1]) case Some(f) => [f] case None => []
  }

  /** The frames of a transfer, if it was not typed. */
  function TransferFrames(t: Transfer, typing: set<string>): seq<Frame> {
    if t.key in typing then [] else WireFrames(t.frames)
  }

  /** The frames the host has not completely written. */
  function QueuedFrames(tx: seq<Transfer>, typing: set<string>): seq<Frame> {
    if tx == [] then []
    else QueuedFrames(tx[..|tx| - 1], typing) + TransferFrames(tx[|tx| - 1], typing)
  }

  /** The host is inside a frame of its own. */
  predicate MidFrame(tx: seq<Transfer>, typing: set<string>) {
    tx != [] && tx[0].offset > 0 && tx[0].key !in typing
  }

  /** The frame an earlier write left in the decoder, to be completed by the next flag. */
  function Leftover(tx: seq<Transfer>, typing: set<string>, line: Line): seq<Frame> {
    if MidFrame(tx, typing) then [] else Left(line)
  }

  /** What is left of that frame after some bytes of the front transfer. */
  function KeptFrames(tx: seq<Transfer>, typing: set<string>, line: Line, bytes: seq<bv8>): seq<Frame> {
    if MidFrame(tx, typing) then [] else Kept(line, bytes, tx != [] && tx[0].key in typing)
  }

  /** Every place a request can be, up to the handler. */
  function Places(w: World): multiset<Id> {
    Ids(QueuedFrames(w.host.tx, w.typing)) + Ids(Leftover(w.host.tx, w.typing, w.line)) + Ids(w.up)
    + Ids(w.device.requests) + Ids(w.handled)
  }

  /** The places of the requests that were not typed, when some bytes are written. */
  function Others(w: World, bytes: seq<bv8>): multiset<Id> {
    Ids(QueuedFrames(w.host.tx, w.typing)) + Ids(KeptFrames(w.host.tx, w.typing, w.line, bytes)) + Ids(w.up)
    + Ids(w.device.requests) + Ids(w.handled)
  }

  /** A request that was submitted, whole. */
  predicate Exact(f: Frame, submitted: map<Id, Submission>) {
    f.kind == REQUEST ==> IdOf(f) in submitted && submitted[IdOf(f)].payload == f.payload
  }

  /** The same of a frame that only matters if the handler can be called for it. */
  predicate Genuine(f: Frame, submitted: map<Id, Submission>) {
    Live(f) ==> Exact(f, submitted)
  }

  predicate AllGenuine(frames: seq<Frame>, submitted: map<Id, Submission>) {
    forall f :: f in frames ==> Genuine(f, submitted)
  }

  predicate AllExact(frames: seq<Frame>, submitted: map<Id, Submission>) {
    forall f :: f in frames ==> Exact(f, submitted)
  }

  // ---------- the invariant ----------

  function Below(a: bv32, b: bv32): bool {
    a < b
  }

  lemma Successors(a: bv32, n: bv32)
    requires n != LAST_REQUEST
    ensures Below(a, n) ==> Below(a, Successor(n))
    ensures Below(n, Successor(n)) && !Below(n, n) && Successor(n) != 0
  {
  }

  predicate Distinct(ids: multiset<Id>) {
    forall id :: id in ids ==> ids[id] == 1
  }

  /** The decoder is where the writes have left it. */
  predicate LineInv(tx: seq<Transfer>, typing: set<string>, line: Line) {
    && T.Shape(tx)
    && (forall i :: 0 <= i < |tx| && tx[i].key !in typing ==> D.AllWires(tx[i].frames))
    && (MidFrame(tx, typing) && tx[0].frames != [] && tx[0].offset <= |tx[0].frames[0]| ==>
          line == Line(Run(FRESH, tx[0].frames[0][..tx[0].offset]), false))
  }

  /** No request is in two places, and none is there that was not submitted. */
  predicate RequestsInv(w: World) {
    && Distinct(Places(w))
    && AllExact(QueuedFrames(w.host.tx, w.typing), w.submitted)
    && AllGenuine(Leftover(w.host.tx, w.typing, w.line), w.submitted)
    && AllGenuine(w.up, w.submitted)
    && AllGenuine(w.device.requests, w.submitted)
    && AllExact(w.handled, w.submitted)
    && (forall f :: f in w.device.requests ==> f.kind == REQUEST && f.request != 0)
    && (forall f :: f in w.handled ==> Live(f))
    && (forall id :: id in w.submitted ==> Json.Unbroken(w.submitted[id].payload))
  }

  /** Request numbers are fresh within a session, and sessions are fresh. */
  predicate FreshInv(host: DuplexState, issued: set<bv64>, submitted: map<Id, Submission>) {
    && (forall id :: id in submitted ==> id.session in issued && id.request != 0)
    && (host.session.Some? ==>
          && host.session.value.nonce in issued
          && host.session.value.nextRequest != 0
          && forall id :: id in submitted && id.session == host.session.value.nonce ==>
               Below(id.request, host.session.value.nextRequest))
  }

  /** The pending call waits for the request it submitted. */
  predicate PendingInv(host: DuplexState, submitted: map<Id, Submission>) {
    host.pending.Some? ==>
      var p := host.pending.value;
      && host.session.Some?
      && (p.kind == RESPONSE || p.kind == HELLO_ACK)
      && (p.kind == HELLO_ACK ==> p.request == 0)
      && (p.kind == RESPONSE ==>
            var id := Id(host.session.value.nonce, p.request);
            id in submitted && submitted[id].key == p.key)
  }

  predicate Justified(f: Frame, handled: seq<Frame>) {
    || (f.kind == HELLO_ACK && f.request == 0)
    || (f.kind == RESPONSE && exists g :: g in handled && IdOf(g) == IdOf(f))
    || (f.kind == ERROR && f.request != 0)
  }

  /** A frame the device produced, or what a stalled driver left of one; events and console output aside. */
  predicate FromDevice(f: Frame, produced: set<Frame>) {
    f.kind == EVENT || f.kind == CONSOLE || exists g :: g in produced && CutOf(f, g)
  }

  predicate AllFromDevice(frames: seq<Frame>, produced: set<Frame>) {
    forall f :: f in frames ==> FromDevice(f, produced)
  }

  /** The device only answers what it was asked. */
  predicate DeviceInv(d: Device, produced: set<Frame>, handled: seq<Frame>) {
    && (forall f :: f in produced ==> Justified(f, handled))
    && (forall f :: f in d.control ==> f in produced || f.kind == EVENT)
    && (d.running.Some? ==> d.running.value in handled)
  }

  /** What the host may be given is from the device, or was printed. */
  predicate DownInv(down: Line, sent: set<Frame>, printed: set<Frame>, produced: set<Frame>) {
    && AllFromDevice(Left(down), produced)
    && printed <= sent
    && (forall f :: f in sent ==> f in printed || FromDevice(f, produced))
  }

  predicate Inv(w: World) {
    && LineInv(w.host.tx, w.typing, w.line)
    && RequestsInv(w)
    && FreshInv(w.host, w.issued, w.submitted)
    && PendingInv(w.host, w.submitted)
    && DeviceInv(w.device, w.produced, w.handled)
    && DownInv(w.down, w.sent, w.printed, w.produced)
  }

  lemma StartInv()
    ensures Inv(START)
  {
  }

  // ---------- counting ----------

  lemma IdsWithout(frames: seq<Frame>, i: nat)
    requires i < |frames|
    ensures Ids(frames) == Ids(Without(frames, i)) + RequestId(frames[i])
  {
    hide Ids;
    hide RequestId;
    assert frames == (frames[..i] + [frames[i]]) + frames[i + 1..];
    IdsConcat(frames[..i] + [frames[i]], frames[i + 1..]);
    IdsConcat(frames[..i], [frames[i]]);
    IdsConcat(frames[..i], frames[i + 1..]);
    IdsOne(frames[i]);
  }

  lemma {:induction false} WireFramesConcat(a: seq<seq<bv8>>, b: seq<seq<bv8>>)
    ensures WireFrames(a + b) == WireFrames(a) + WireFrames(b)
  {
    hide DecodeWire;
    if b == [] {
      assert a + b == a;
    } else {
      var n := |b| - 1;
      assert (a + b)[..|a + b| - 1] == a + b[..n];
      WireFramesConcat(a, b[..n]);
    }
  }

  lemma {:induction false} QueuedConcat(a: seq<Transfer>, b: seq<Transfer>, typing: set<string>)
    ensures QueuedFrames(a + b, typing) == QueuedFrames(a, typing) + QueuedFrames(b, typing)
  {
    hide TransferFrames;
    if b == [] {
      assert a + b == a;
    } else {
      var n := |b| - 1;
      assert (a + b)[..|a + b| - 1] == a + b[..n];
      QueuedConcat(a, b[..n], typing);
    }
  }

  lemma QueuedOne(t: Transfer, typing: set<string>)
    ensures QueuedFrames([t], typing) == TransferFrames(t, typing)
  {
    hide TransferFrames;
    assert [t][..0] == [];
  }

  lemma WireFramesOne(b: seq<bv8>)
    ensures WireFrames([b]) == match DecodeWire(b) case Some(f) => [f] case None => []
  {
    hide DecodeWire;
    assert [b][..0] == [];
  }

  lemma SplitQueued(tx: seq<Transfer>, typing: set<string>)
    requires tx != []
    ensures QueuedFrames(tx, typing) == TransferFrames(tx[0], typing) + QueuedFrames(tx[1..], typing)
    ensures Ids(QueuedFrames(tx, typing)) == Ids(TransferFrames(tx[0], typing)) + Ids(QueuedFrames(tx[1..], typing))
  {
    hide QueuedFrames;
    hide TransferFrames;
    hide Ids;
    assert tx == [tx[0]] + tx[1..];
    QueuedConcat([tx[0]], tx[1..], typing);
    QueuedOne(tx[0], typing);
    IdsConcat(TransferFrames(tx[0], typing), QueuedFrames(tx[1..], typing));
  }

  /** The same requests, wherever their transfer is in the queue. */
  lemma RequeuedIds(front: Transfer, rest: seq<Transfer>, typing: set<string>)
    ensures Ids(QueuedFrames(Requeue(front, rest).0, typing))
         == Ids(TransferFrames(front, typing)) + Ids(QueuedFrames(rest, typing))
    ensures forall f :: f in QueuedFrames(Requeue(front, rest).0, typing) ==>
              f in TransferFrames(front, typing) || f in QueuedFrames(rest, typing)
  {
    hide Ids;
    hide QueuedFrames;
    if front.frames == [] {
      NoWireFrames();
    } else {
      hide TransferFrames;
      QueuedOne(front, typing);
      QueuedConcat(rest, [front], typing);
      QueuedConcat([front], rest, typing);
      IdsConcat(QueuedFrames(rest, typing), TransferFrames(front, typing));
      IdsConcat(TransferFrames(front, typing), QueuedFrames(rest, typing));
    }
  }

  lemma NoWireFrames()
    ensures WireFrames([]) == [] && Ids([]) == multiset{}
  {
  }

  /** The frames of a transfer, the first one apart. */
  lemma FirstWireFrame(frames: seq<seq<bv8>>)
    requires frames != [] && D.IsWire(frames[0])
    ensures WireFrames(frames) == [DecodeWire(frames[0]).value] + WireFrames(frames[1..])
    ensures Ids(WireFrames(frames)) == RequestId(DecodeWire(frames[0]).value) + Ids(WireFrames(frames[1..]))
  {
    hide Ids;
    hide WireFrames;
    hide DecodeWire;
    hide RequestId;
    hide Wire;
    var first, rest := [frames[0]], frames[1..];
    assert frames == first + rest;
    WireFramesConcat(first, rest);
    WireFramesOne(frames[0]);
    IdsConcat([DecodeWire(frames[0]).value], WireFrames(rest));
    IdsOne(DecodeWire(frames[0]).value);
  }

  // ---------- the host's part of a step ----------

  /** The host learns nothing new: its call or its session may have ended. */
  predicate Recedes(h: DuplexState, h': DuplexState) {
    && (h'.pending.Some? ==> h'.pending == h.pending && (h.session.Some? ==> h'.session.Some?))
    && (h'.session.Some? ==>
          && h.session.Some?
          && h'.session.value.nonce == h.session.value.nonce
          && h'.session.value.nextRequest == h.session.value.nextRequest)
  }

  lemma RecedesKeeps(h: DuplexState, h': DuplexState, issued: set<bv64>, submitted: map<Id, Submission>)
    requires FreshInv(h, issued, submitted) && PendingInv(h, submitted) && Recedes(h, h')
    ensures FreshInv(h', issued, submitted) && PendingInv(h', submitted)
  {
  }

  lemma FeedRecedes(s: DuplexState, items: seq<Decoded>, before: nat, after: nat,
                    parse: seq<bv8> -> Option<Json.Value>)
    requires s.session.Some?
    ensures var s' := FeedItemsStep(s, items, before, after, parse).0; Recedes(s, s') && s'.tx == s.tx
  {
    hide Handle;
    hide Verdict;
    hide SpeaksProtocolOne;
  }

  lemma TickRecedes(s: DuplexState, c: Call, env: Env)
    requires c.TickCall? && Allowed(s, c)
    ensures Recedes(s, Apply(s, c, env).0)
  {
    hide Requeue;
    hide Advanced;
    hide Offer;
    hide Overdue;
  }

  /** What a tick did to the queue, and the bytes it wrote. */
  predicate TickDid(tx: seq<Transfer>, tx': seq<Transfer>, written: seq<bv8>, q: D.QueueStep) {
    match q
    case Same => tx' == tx && written == []
    case Dropped => tx != [] && tx[0].frames == [] && tx' == tx[1..] && written == []
    case Wrote(n) =>
      && tx != [] && tx[0].frames != [] && tx[0].offset <= |tx[0].frames[0]|
      && 0 < n <= |Offer(tx[0])|
      && tx' == Requeue(Advanced(tx[0], n), tx[1..]).0
      && written == Offer(tx[0])[..n]
    case Pushed(_) => false
  }

  lemma ClassifyTick(s: DuplexState, c: Call, env: Env) returns (q: D.QueueStep)
    requires c.TickCall? && Allowed(s, c)
    ensures TickDid(s.tx, Apply(s, c, env).0.tx, Apply(s, c, env).1.written, q)
  {
    hide Requeue;
    hide Advanced;
    hide Offer;
    hide Overdue;
    if TickStep(s, c.readings, c.outcome, c.now).1.TickFailed? || s.tx == [] {
      q := D.Same;
    } else if s.tx[0].frames == [] {
      T.RequeueEmpty(s.tx[0], s.tx[1..]);
      q := D.Dropped;
    } else if c.outcome.Accepted? {
      q := D.Wrote(c.outcome.n);
    } else {
      q := D.Same;
    }
  }

  /** Nothing is lost, copied or made up between the queue, the decoder and the frames it reports. */
  predicate Flows(tx: seq<Transfer>, typing: set<string>, line: Line, tx': seq<Transfer>, line': Line,
                  arrived: seq<Frame>, kept: seq<Frame>, typed: seq<Frame>)
  {
    && Ids(QueuedFrames(tx', typing)) + Ids(Leftover(tx', typing, line')) + Ids(arrived)
    == Ids(QueuedFrames(tx, typing)) + Ids(kept) + Ids(typed)
    && (forall f :: f in QueuedFrames(tx', typing) ==> f in QueuedFrames(tx, typing))
    && (forall f :: f in Leftover(tx', typing, line') ==> f in Leftover(tx, typing, line))
    && (forall f :: f in arrived ==> f in QueuedFrames(tx, typing) || f in Leftover(tx, typing, line) || f in typed)
    && (forall f :: f in typed ==> f in arrived)
  }

  /** After a write, the front is in the middle of its frame, or every transfer is between two. */
  lemma AfterWrite(tx: seq<Transfer>, typing: set<string>, n: nat)
    requires T.Shape(tx) && tx != [] && tx[0].frames != [] && 0 < n <= |Offer(tx[0])|
    ensures var (t, tx') := (tx[0], Requeue(Advanced(tx[0], n), tx[1..]).0);
            && (t.offset + n == |t.frames[0]| ==> !MidFrame(tx', typing))
            && (t.offset + n < |t.frames[0]| ==>
                  tx'[..1] == [Advanced(t, n)] && (MidFrame(tx', typing) <==> t.key !in typing))
            && (t.key in typing ==> !MidFrame(tx', typing))
    ensures Offer(tx[0])[..n] == tx[0].frames[0][tx[0].offset..tx[0].offset + n]
  {
  }

  lemma WriteKeepsWires(tx: seq<Transfer>, typing: set<string>, n: nat)
    requires forall i :: 0 <= i < |tx| && tx[i].key !in typing ==> D.AllWires(tx[i].frames)
    requires tx != [] && tx[0].frames != []
    ensures var tx' := Requeue(Advanced(tx[0], n), tx[1..]).0;
            forall i :: 0 <= i < |tx'| && tx'[i].key !in typing ==> D.AllWires(tx'[i].frames)
  {
    hide D.IsWire;
  }

  /** The requests of the queue, before and after a write. */
  lemma WriteMoves(tx: seq<Transfer>, typing: set<string>, n: nat)
    requires tx != [] && tx[0].frames != [] && (tx[0].key !in typing ==> D.IsWire(tx[0].frames[0]))
    ensures var (t, after) := (tx[0], QueuedFrames(Requeue(Advanced(tx[0], n), tx[1..]).0, typing));
            && (forall f :: f in after ==> f in QueuedFrames(tx, typing))
            && (t.key !in typing ==> DecodeWire(t.frames[0]).Some?
                                     && DecodeWire(t.frames[0]).value in QueuedFrames(tx, typing))
            && Ids(QueuedFrames(tx, typing))
            == Ids(after) + if t.key !in typing && t.offset + n == |t.frames[0]|
                            then RequestId(DecodeWire(t.frames[0]).value) else multiset{}
  {
    hide Ids;
    hide QueuedFrames;
    hide WireFrames;
    hide DecodeWire;
    hide Requeue;
    hide RequestId;
    hide Wire;
    RequeuedIds(Advanced(tx[0], n), tx[1..], typing);
    SplitQueued(tx, typing);
    NoWireFrames();
    if tx[0].key !in typing {
      FirstWireFrame(tx[0].frames);
    }
  }

  /** Where the decoder is after a write inside the host's own frames. */
  lemma OwnWriteCarries(t: Transfer, line: Line, n: nat)
    requires t.frames != [] && D.IsWire(t.frames[0]) && t.offset < t.offset + n <= |t.frames[0]|
    requires t.offset > 0 ==> line == Line(Run(FRESH, t.frames[0][..t.offset]), false)
    ensures Carry(line, t.frames[0][t.offset..t.offset + n], false)
         == Line(Run(FRESH, t.frames[0][..t.offset + n]), false)
  {
    hide Run;
    hide Carry;
    hide D.IsWire;
    WireOf(t.frames[0]);
    FrameArrives(line, DecodeWire(t.frames[0]).value, t.offset, n);
  }

  lemma FrontIsWire(tx: seq<Transfer>, typing: set<string>, line: Line)
    requires LineInv(tx, typing, line) && tx != [] && tx[0].frames != []
    ensures tx[0].offset < |tx[0].frames[0]|
    ensures tx[0].key !in typing ==> D.IsWire(tx[0].frames[0])
    ensures tx[0].key !in typing && tx[0].offset > 0 ==>
              line == Line(Run(FRESH, tx[0].frames[0][..tx[0].offset]), false)
  {
    hide D.IsWire;
    hide Run;
  }

  lemma WriteKeepsLine(tx: seq<Transfer>, typing: set<string>, line: Line, n: nat)
    requires LineInv(tx, typing, line) && tx != [] && tx[0].frames != [] && 0 < n <= |Offer(tx[0])|
    ensures var tx' := Requeue(Advanced(tx[0], n), tx[1..]).0;
            LineInv(tx', typing, Carry(line, Offer(tx[0])[..n], tx[0].key in typing))
  {
    hide D.AllWires;
    hide Run;
    hide Carry;
    hide T.Shape;
    FrontIsWire(tx, typing, line);
    T.WriteKeepsShape(tx, n);
    WriteKeepsWires(tx, typing, n);
    AfterWrite(tx, typing, n);
    if tx[0].key !in typing {
      OwnWriteCarries(tx[0], line, n);
    }
    hide Requeue;
    hide Offer;
  }

  lemma WireOf(bytes: seq<bv8>)
    requires D.IsWire(bytes)
    ensures DecodeWire(bytes).Some? && Encodable(DecodeWire(bytes).value) && bytes == Wire(DecodeWire(bytes).value)
  {
  }

  /** What the host's own bytes complete: what was left before them, and the frame at their end. */
  lemma OwnWriteParts(tx: seq<Transfer>, typing: set<string>, line: Line, n: nat)
    requires LineInv(tx, typing, line) && tx != [] && tx[0].frames != [] && 0 < n <= |Offer(tx[0])|
    requires tx[0].key !in typing
    ensures DecodeWire(tx[0].frames[0]).Some?
    ensures var (t, bytes) := (tx[0], Offer(tx[0])[..n]);
            var early := if t.offset == 0 then Ending(line.decoder) else [];
            && Arrived(line, bytes)
            == early + (if t.offset + n == |t.frames[0]| then [DecodeWire(t.frames[0]).value] else [])
            && TypedFrames(line, bytes, false) == (if line.typed then early else [])
            && KeptFrames(tx, typing, line, bytes) == (if line.typed then [] else early)
  {
    hide D.IsWire;
    hide Run;
    hide Carry;
    hide Arrived;
    hide Ending;
    hide TypedFrames;
    FrontIsWire(tx, typing, line);
    AfterWrite(tx, typing, n);
    hide Offer;
    hide LineInv;
    WireOf(tx[0].frames[0]);
    FrameArrives(line, DecodeWire(tx[0].frames[0]).value, tx[0].offset, n);
  }

  lemma PartsIds(early: seq<Frame>, late: seq<Frame>, typed: bool)
    ensures Ids(early + late) == Ids(if typed then [] else early) + Ids(if typed then early else []) + Ids(late)
  {
    hide Ids;
    IdsConcat(early, late);
    NoWireFrames();
  }

  /** Every frame the host's own bytes complete was left before them, or is typed, or is the frame at their end. */
  lemma OwnWriteArrives(tx: seq<Transfer>, typing: set<string>, line: Line, n: nat)
    requires LineInv(tx, typing, line) && tx != [] && tx[0].frames != [] && 0 < n <= |Offer(tx[0])|
    requires tx[0].key !in typing
    ensures DecodeWire(tx[0].frames[0]).Some?
    ensures var (t, f, bytes) := (tx[0], DecodeWire(tx[0].frames[0]).value, Offer(tx[0])[..n]);
            && Ids(Arrived(line, bytes))
            == Ids(KeptFrames(tx, typing, line, bytes)) + Ids(TypedFrames(line, bytes, false))
               + (if t.offset + n == |t.frames[0]| then RequestId(f) else multiset{})
            && (forall g :: g in Arrived(line, bytes) ==>
                  g == f || g in Leftover(tx, typing, line) || g in TypedFrames(line, bytes, false))
            && (forall g :: g in TypedFrames(line, bytes, false) ==> g in Arrived(line, bytes))
  {
    hide D.IsWire;
    hide DecodeWire;
    hide Run;
    hide Carry;
    hide Arrived;
    hide Ending;
    hide TypedFrames;
    hide Ids;
    hide RequestId;
    hide LineInv;
    hide Kept;
    var t := tx[0];
    OwnWriteParts(tx, typing, line, n);
    var late := if t.offset + n == |t.frames[0]| then [DecodeWire(t.frames[0]).value] else [];
    PartsIds(if t.offset == 0 then Ending(line.decoder) else [], late, line.typed);
    IdsOne(DecodeWire(t.frames[0]).value);
    NoWireFrames();
    hide KeptFrames;
    hide Offer;
  }

  lemma OwnWriteLeaves(tx: seq<Transfer>, typing: set<string>, line: Line, n: nat)
    requires LineInv(tx, typing, line) && tx != [] && tx[0].frames != [] && 0 < n <= |Offer(tx[0])|
    requires tx[0].key !in typing
    ensures Leftover(Requeue(Advanced(tx[0], n), tx[1..]).0, typing, Carry(line, Offer(tx[0])[..n], false)) == []
  {
    hide D.IsWire;
    hide Run;
    hide Carry;
    hide Ending;
    FrontIsWire(tx, typing, line);
    AfterWrite(tx, typing, n);
    OwnWriteCarries(tx[0], line, n);
    hide Requeue;
    hide LineInv;
    WireOf(tx[0].frames[0]);
    FrameEndsClean(DecodeWire(tx[0].frames[0]).value);
  }

  /** A write inside the host's own frames. */
  lemma OwnWriteFlows(tx: seq<Transfer>, typing: set<string>, line: Line, n: nat)
    requires LineInv(tx, typing, line) && tx != [] && tx[0].frames != [] && 0 < n <= |Offer(tx[0])|
    requires tx[0].key !in typing
    ensures var bytes := Offer(tx[0])[..n];
            Flows(tx, typing, line, Requeue(Advanced(tx[0], n), tx[1..]).0, Carry(line, bytes, false),
                  Arrived(line, bytes), KeptFrames(tx, typing, line, bytes), TypedFrames(line, bytes, false))
    ensures Leftover(Requeue(Advanced(tx[0], n), tx[1..]).0, typing, Carry(line, Offer(tx[0])[..n], false)) == []
  {
    hide D.IsWire;
    hide DecodeWire;
    hide Carry;
    hide Arrived;
    hide TypedFrames;
    hide KeptFrames;
    hide Ids;
    hide RequestId;
    hide QueuedFrames;
    hide Leftover;
    hide Requeue;
    hide Offer;
    FrontIsWire(tx, typing, line);
    WriteMoves(tx, typing, n);
    OwnWriteArrives(tx, typing, line, n);
    OwnWriteLeaves(tx, typing, line, n);
    NoWireFrames();
  }

  /** A write of typed text. */
  lemma TypedWriteFlows(tx: seq<Transfer>, typing: set<string>, line: Line, n: nat)
    requires LineInv(tx, typing, line) && tx != [] && tx[0].frames != [] && 0 < n <= |Offer(tx[0])|
    requires tx[0].key in typing
    ensures var bytes := Offer(tx[0])[..n];
            Flows(tx, typing, line, Requeue(Advanced(tx[0], n), tx[1..]).0, Carry(line, bytes, true),
                  Arrived(line, bytes), KeptFrames(tx, typing, line, bytes), TypedFrames(line, bytes, true))
    ensures Leftover(Requeue(Advanced(tx[0], n), tx[1..]).0, typing, Carry(line, Offer(tx[0])[..n], true)) == []
  {
    hide D.IsWire;
    hide Run;
    hide Carry;
    hide Arrived;
    hide Left;
    hide Kept;
    hide TypedFrames;
    hide Ids;
    hide QueuedFrames;
    AfterWrite(tx, typing, n);
    var bytes := Offer(tx[0])[..n];
    assert bytes != [];
    hide Requeue;
    hide Offer;
    WriteMoves(tx, typing, n);
    TypedBytes(line, bytes);
    TypingConserves(line, bytes);
    assert KeptFrames(tx, typing, line, bytes) == Kept(line, bytes, true);
    NoWireFrames();
    assert Ids(Arrived(line, bytes)) == Ids(Kept(line, bytes, true)) + Ids(TypedFrames(line, bytes, true));
  }

  lemma DropKeepsShape(tx: seq<Transfer>)
    requires T.Shape(tx) && tx != [] && tx[0].frames == []
    ensures T.Shape(tx[1..]) && tx[0].offset == 0 && (|tx| > 1 ==> tx[1].offset == 0)
  {
  }

  lemma DropKeepsLine(tx: seq<Transfer>, typing: set<string>, line: Line)
    requires LineInv(tx, typing, line) && tx != [] && tx[0].frames == []
    ensures LineInv(tx[1..], typing, line) && Leftover(tx[1..], typing, line) == Leftover(tx, typing, line)
  {
    hide D.AllWires;
    hide Run;
    hide Left;
    DropKeepsShape(tx);
    hide T.Shape;
    assert !MidFrame(tx, typing) && !MidFrame(tx[1..], typing);
  }

  lemma DropKeepsQueue(tx: seq<Transfer>, typing: set<string>)
    requires tx != [] && tx[0].frames == []
    ensures QueuedFrames(tx[1..], typing) == QueuedFrames(tx, typing)
  {
    hide QueuedFrames;
    SplitQueued(tx, typing);
    NoWireFrames();
    assert [] + QueuedFrames(tx[1..], typing) == QueuedFrames(tx[1..], typing);
  }

  lemma GenuineIds(frames: seq<Frame>, submitted: map<Id, Submission>, id: Id)
    requires AllGenuine(frames, submitted) && id in Ids(frames)
    ensures id in submitted
  {
    hide Ids;
    hide Live;
    var f := IdsSource(frames, id);
    assert Genuine(f, submitted);
  }

  lemma ExactIsGenuine(frames: seq<Frame>, submitted: map<Id, Submission>)
    requires AllExact(frames, submitted)
    ensures AllGenuine(frames, submitted)
  {
    forall f | f in frames ensures Genuine(f, submitted) {
      assert Exact(f, submitted);
    }
  }

  /** Nothing unsubmitted is anywhere. */
  lemma PlacesAreSubmitted(w: World, id: Id)
    requires RequestsInv(w) && id in Places(w)
    ensures id in w.submitted
  {
    hide Ids;
    hide QueuedFrames;
    hide Leftover;
    hide Genuine;
    hide Exact;
    hide Distinct;
    ExactIsGenuine(QueuedFrames(w.host.tx, w.typing), w.submitted);
    ExactIsGenuine(w.handled, w.submitted);
    if id in Ids(QueuedFrames(w.host.tx, w.typing)) {
      GenuineIds(QueuedFrames(w.host.tx, w.typing), w.submitted, id);
    } else if id in Ids(Leftover(w.host.tx, w.typing, w.line)) {
      GenuineIds(Leftover(w.host.tx, w.typing, w.line), w.submitted, id);
    } else if id in Ids(w.up) {
      GenuineIds(w.up, w.submitted, id);
    } else if id in Ids(w.device.requests) {
      GenuineIds(w.device.requests, w.submitted, id);
    } else {
      GenuineIds(w.handled, w.submitted, id);
    }
  }

  // ---------- host calls keep the invariant ----------

  lemma FewerDistinct(more: multiset<Id>, fewer: multiset<Id>)
    requires Distinct(more) && fewer <= more
    ensures Distinct(fewer)
  {
  }

  lemma FlowPlaces(w: World, w': World, arrived: seq<Frame>, bytes: seq<bv8>, typed: seq<Frame>)
    requires w'.typing == w.typing && w'.device == w.device && w'.handled == w.handled && w'.up == w.up + arrived
    requires Flows(w.host.tx, w.typing, w.line, w'.host.tx, w'.line, arrived,
                   KeptFrames(w.host.tx, w.typing, w.line, bytes), typed)
    ensures Places(w') == Others(w, bytes) + Ids(typed)
  {
    hide Ids;
    hide QueuedFrames;
    hide Leftover;
    hide KeptFrames;
    IdsConcat(w.up, arrived);
    var a, b, c := Ids(QueuedFrames(w'.host.tx, w.typing)), Ids(Leftover(w'.host.tx, w.typing, w'.line)), Ids(arrived);
    var rest := Ids(w.up) + Ids(w.device.requests) + Ids(w.handled);
    var kept := KeptFrames(w.host.tx, w.typing, w.line, bytes);
    assert Places(w') == (a + b + c) + rest;
    assert Others(w, bytes) + Ids(typed) == (Ids(QueuedFrames(w.host.tx, w.typing)) + Ids(kept) + Ids(typed)) + rest;
  }

  /** What flows from the queue through the decoder stays accounted for. */
  lemma FlowKeeps(w: World, w': World, arrived: seq<Frame>, bytes: seq<bv8>, typed: seq<Frame>)
    requires RequestsInv(w) && w'.submitted == w.submitted && w'.typing == w.typing
    requires w'.device == w.device && w'.handled == w.handled && w'.up == w.up + arrived
    requires Flows(w.host.tx, w.typing, w.line, w'.host.tx, w'.line, arrived,
                   KeptFrames(w.host.tx, w.typing, w.line, bytes), typed)
    requires AllGenuine(typed, w.submitted) && Distinct(Others(w, bytes) + Ids(typed))
    ensures RequestsInv(w')
  {
    hide Ids;
    hide QueuedFrames;
    hide Leftover;
    hide KeptFrames;
    hide Distinct;
    hide Live;
    hide Json.Unbroken;
    FlowPlaces(w, w', arrived, bytes, typed);
    hide Places;
    hide Others;
    forall f | f in w'.up || f in Leftover(w'.host.tx, w.typing, w'.line) ensures Genuine(f, w.submitted) {
      if f in QueuedFrames(w.host.tx, w.typing) {
        assert Exact(f, w.submitted);
      }
    }
    forall f | f in QueuedFrames(w'.host.tx, w.typing) ensures Exact(f, w.submitted) {
      assert f in QueuedFrames(w.host.tx, w.typing);
    }
  }

  lemma NothingFlows(tx: seq<Transfer>, typing: set<string>, line: Line)
    ensures Flows(tx, typing, line, tx, line, [], KeptFrames(tx, typing, line, []), [])
  {
    hide Ids;
    hide QueuedFrames;
    hide Left;
    NoWireFrames();
  }

  /** Every write conserves the requests; whatever the driver takes, nothing of a cut frame is left after it. */
  lemma TickFlows(w: World, c: Call, env: Env)
    requires c.TickCall? && Allowed(w.host, c) && LineInv(w.host.tx, w.typing, w.line)
    ensures var (w', bytes) := (HostStep(w, c, env), Written(w.host, c, env));
            && LineInv(w'.host.tx, w.typing, w'.line)
            && Flows(w.host.tx, w.typing, w.line, w'.host.tx, w'.line, Arrived(w.line, bytes),
                     KeptFrames(w.host.tx, w.typing, w.line, bytes), TypedBy(w, c, env))
            && (bytes != [] ==> Leftover(w'.host.tx, w.typing, w'.line) == [])
            && (bytes == [] ==> TypedBy(w, c, env) == []
                                && Leftover(w'.host.tx, w.typing, w'.line) == Leftover(w.host.tx, w.typing, w.line))
  {
    hide Flows;
    hide LineInv;
    hide Apply;
    hide Requeue;
    hide Advanced;
    hide Offer;
    hide Carry;
    hide Arrived;
    hide TypedFrames;
    hide Leftover;
    hide KeptFrames;
    var tx, typing, line := w.host.tx, w.typing, w.line;
    var q := ClassifyTick(w.host, c, env);
    CarryNothing(line, FrontIsTyped(w));
    NothingFlows(tx, typing, line);
    match q {
      case Same =>
      case Dropped =>
        DropKeepsLine(tx, typing, line);
        DropFlows(tx, typing, line);
      case Wrote(n) =>
        WriteKeepsLine(tx, typing, line, n);
        if tx[0].key in typing {
          TypedWriteFlows(tx, typing, line, n);
        } else {
          OwnWriteFlows(tx, typing, line, n);
        }
      case Pushed(_) =>
    }
  }

  lemma DropFlows(tx: seq<Transfer>, typing: set<string>, line: Line)
    requires LineInv(tx, typing, line) && tx != [] && tx[0].frames == []
    ensures Flows(tx, typing, line, tx[1..], line, [], KeptFrames(tx, typing, line, []), [])
  {
    hide Ids;
    hide QueuedFrames;
    hide Left;
    hide LineInv;
    NoWireFrames();
    DropKeepsLine(tx, typing, line);
    DropKeepsQueue(tx, typing);
  }

  lemma TickKeeps(w: World, c: Call, env: Env)
    requires Inv(w) && c.TickCall? && Allowed(w.host, c) && TypesNoCopy(w, c, env)
    ensures Inv(HostStep(w, c, env))
  {
    hide Flows;
    hide LineInv;
    hide RequestsInv;
    hide TickStep;
    hide DeviceInv;
    hide FreshInv;
    hide PendingInv;
    hide DownInv;
    hide Distinct;
    hide AllGenuine;
    hide Others;
    hide TypedFrames;
    hide KeptFrames;
    hide Ids;
    hide Carry;
    hide Arrived;
    TickRecedes(w.host, c, env);
    RecedesKeeps(w.host, Apply(w.host, c, env).0, w.issued, w.submitted);
    TickFlows(w, c, env);
    var bytes := Written(w.host, c, env);
    FlowKeeps(w, HostStep(w, c, env), Arrived(w.line, bytes), bytes, TypedBy(w, c, env));
  }

  // ---------- aborts ----------

  lemma FrontFrameQueued(tx: seq<Transfer>, typing: set<string>)
    requires tx != [] && tx[0].frames != [] && tx[0].key !in typing && D.IsWire(tx[0].frames[0])
    ensures var f := DecodeWire(tx[0].frames[0]).value;
            f in QueuedFrames(tx, typing) && RequestId(f) <= Ids(QueuedFrames(tx, typing))
  {
    hide Ids;
    hide QueuedFrames;
    hide WireFrames;
    hide DecodeWire;
    hide RequestId;
    hide Wire;
    SplitQueued(tx, typing);
    FirstWireFrame(tx[0].frames);
  }

  lemma OneEnding(d: State)
    ensures |Ending(d)| <= 1
  {
    hide Decode;
    GotFramesNothing();
    if AtFlag(d) != [] {
      assert |AtFlag(d)| == 1 && AtFlag(d)[..0] == [];
    }
  }

  lemma FewIds(frames: seq<Frame>, f: Frame)
    requires |frames| <= 1 && forall g :: g in frames && Live(g) ==> Live(f) && IdOf(g) == IdOf(f)
    ensures Ids(frames) <= RequestId(f)
  {
    hide Live;
    if frames != [] {
      assert frames == [frames[0]];
      IdsOne(frames[0]);
    }
  }

  /** A request that was cut does not pass the scan: the handler only sees whole ones. */
  lemma CutIsDead(g: Frame, f: Frame)
    requires CutOf(g, f) && Live(g) && Json.Unbroken(f.payload)
    ensures g.payload == f.payload && Live(f)
  {
    hide Json.Scan;
  }

  /** What is left of a frame that was cut is that request, or nothing the handler can be called for. */
  lemma CutLeaves(tx: seq<Transfer>, typing: set<string>, line: Line)
    requires LineInv(tx, typing, line) && MidFrame(tx, typing)
    ensures tx[0].frames != [] && D.IsWire(tx[0].frames[0])
    ensures var f := DecodeWire(tx[0].frames[0]).value;
            && (forall g :: g in Left(line) ==> CutOf(g, f))
            && (Json.Unbroken(f.payload) || f.kind != REQUEST ==> Ids(Left(line)) <= RequestId(f))
  {
    hide Ids;
    hide Run;
    hide Ending;
    hide RequestId;
    hide D.IsWire;
    hide CutOf;
    hide Live;
    var t := tx[0];
    WireOf(t.frames[0]);
    var f := DecodeWire(t.frames[0]).value;
    forall g | g in Left(line) ensures CutOf(g, f) {
      CutFrame(f, t.offset, g);
    }
    if Json.Unbroken(f.payload) || f.kind != REQUEST {
      forall g | g in Left(line) && Live(g) ensures Live(f) && IdOf(g) == IdOf(f) {
        CutIsRequest(g, f);
        CutIsDead(g, f);
      }
      OneEnding(line.decoder);
      FewIds(Left(line), f);
    }
  }

  lemma CutIsRequest(g: Frame, f: Frame)
    requires CutOf(g, f) && Live(g)
    ensures f.kind == REQUEST && IdOf(g) == IdOf(f)
  {
    hide Json.Scan;
  }

  lemma CutIsGenuine(f: Frame, g: Frame, submitted: map<Id, Submission>)
    requires Exact(f, submitted) && CutOf(g, f)
    requires forall id :: id in submitted ==> Json.Unbroken(submitted[id].payload)
    ensures Genuine(g, submitted)
  {
    hide Json.Scan;
    hide Json.Unbroken;
    if Live(g) {
      CutIsDead(g, f);
    }
  }

  /** Aborting loses the queue, except what the decoder already holds of its front. */
  lemma AbortRequests(w: World, w': World)
    requires LineInv(w.host.tx, w.typing, w.line) && RequestsInv(w)
    requires w' == w.(host := EMPTY)
    ensures RequestsInv(w')
  {
    hide Ids;
    hide Left;
    hide Genuine;
    hide Exact;
    hide Live;
    hide Distinct;
    hide D.IsWire;
    hide DecodeWire;
    hide Json.Unbroken;
    NoWireFrames();
    assert QueuedFrames(w'.host.tx, w.typing) == [];
    if MidFrame(w.host.tx, w.typing) {
      CutLeaves(w.host.tx, w.typing, w.line);
      FrontFrameQueued(w.host.tx, w.typing);
      WireOf(w.host.tx[0].frames[0]);
      var f := DecodeWire(w.host.tx[0].frames[0]).value;
      ExactIsUnbroken(f, w.submitted);
      forall g | g in Left(w.line) ensures Genuine(g, w.submitted) {
        CutIsGenuine(f, g, w.submitted);
      }
    }
    hide QueuedFrames;
    FewerDistinct(Places(w), Places(w'));
  }

  lemma ExactIsUnbroken(f: Frame, submitted: map<Id, Submission>)
    requires Exact(f, submitted) && forall id :: id in submitted ==> Json.Unbroken(submitted[id].payload)
    ensures Json.Unbroken(f.payload) || f.kind != REQUEST
  {
    hide Json.Unbroken;
  }

  lemma AbortKeeps(w: World, c: Call, env: Env)
    requires Inv(w) && c.AbortCall?
    ensures Inv(HostStep(w, c, env))
  {
    hide RequestsInv;
    hide DeviceInv;
    hide Carry;
    hide Arrived;
    CarryNothing(w.line, FrontIsTyped(w));
    assert w.up + [] == w.up;
    AbortRequests(w, HostStep(w, c, env));
  }

  // ---------- new transfers ----------

  lemma PushedFrames(tx: seq<Transfer>, t: Transfer, typing: set<string>)
    ensures QueuedFrames(tx + [t], typing) == QueuedFrames(tx, typing) + TransferFrames(t, typing)
    ensures Ids(QueuedFrames(tx + [t], typing)) == Ids(QueuedFrames(tx, typing)) + Ids(TransferFrames(t, typing))
  {
    hide Ids;
    hide TransferFrames;
    hide QueuedFrames;
    QueuedConcat(tx, [t], typing);
    QueuedOne(t, typing);
    IdsConcat(QueuedFrames(tx, typing), TransferFrames(t, typing));
  }

  lemma WiresNotEmpty(frames: seq<seq<bv8>>)
    requires D.AllWires(frames)
    ensures forall j :: 0 <= j < |frames| ==> frames[j] != []
  {
    hide Wire;
    hide DecodeWire;
    forall j | 0 <= j < |frames| ensures frames[j] != [] {
      T.WireNotEmpty(DecodeWire(frames[j]).value);
    }
  }

  lemma PushKeepsLine(tx: seq<Transfer>, typing: set<string>, line: Line, t: Transfer)
    requires LineInv(tx, typing, line) && t.offset == 0 && forall j :: 0 <= j < |t.frames| ==> t.frames[j] != []
    requires t.key !in typing ==> D.AllWires(t.frames)
    ensures LineInv(tx + [t], typing, line) && Leftover(tx + [t], typing, line) == Leftover(tx, typing, line)
  {
    hide D.AllWires;
    if tx != [] {
      assert (tx + [t])[0] == tx[0];
    }
  }

  lemma {:induction false} TypingElsewhere(tx: seq<Transfer>, typing: set<string>, line: Line, key: string)
    requires NotQueued(key, tx)
    ensures QueuedFrames(tx, typing + {key}) == QueuedFrames(tx, typing)
    ensures Leftover(tx, typing + {key}, line) == Leftover(tx, typing, line)
  {
    hide Left;
    hide WireFrames;
    if tx != [] {
      TypingElsewhere(tx[..|tx| - 1], typing, line, key);
    }
  }

  lemma TypingKeepsLine(tx: seq<Transfer>, typing: set<string>, line: Line, key: string)
    requires LineInv(tx, typing, line) && NotQueued(key, tx)
    ensures LineInv(tx, typing + {key}, line)
  {
    hide D.AllWires;
    hide Run;
  }

  /** A new transfer without requests. */
  lemma PushKeepsRequests(w: World, w': World, t: Transfer)
    requires RequestsInv(w) && LineInv(w.host.tx, w.typing, w.line)
    requires w' == w.(host := w'.host, issued := w'.issued) && w'.host.tx == w.host.tx + [t]
    requires t.offset == 0 && forall j :: 0 <= j < |t.frames| ==> t.frames[j] != []
    requires t.key !in w.typing ==> D.AllWires(t.frames)
    requires forall f :: f in TransferFrames(t, w.typing) ==> f.kind != REQUEST
    ensures RequestsInv(w') && LineInv(w'.host.tx, w.typing, w.line)
  {
    hide Ids;
    hide TransferFrames;
    hide QueuedFrames;
    hide Leftover;
    hide LineInv;
    hide Genuine;
    hide Distinct;
    hide D.AllWires;
    hide Json.Unbroken;
    PushedFrames(w.host.tx, t, w.typing);
    PushKeepsLine(w.host.tx, w.typing, w.line, t);
    NoRequests(TransferFrames(t, w.typing));
    assert Places(w') == Places(w);
  }

  lemma {:induction false} InWireFrames(wires: seq<seq<bv8>>, f: Frame)
    requires f in WireFrames(wires)
    ensures exists i :: 0 <= i < |wires| && DecodeWire(wires[i]) == Some(f)
  {
    hide DecodeWire;
    var n := |wires| - 1;
    if f in WireFrames(wires[..n]) {
      InWireFrames(wires[..n], f);
      var i :| 0 <= i < n && DecodeWire(wires[..n][i]) == Some(f);
      assert DecodeWire(wires[i]) == Some(f);
    } else {
      assert DecodeWire(wires[n]) == Some(f);
    }
  }

  /** Console input in a session contains no request. */
  lemma ConsoleHasNoRequest(session: SessionState, data: seq<bv8>, f: Frame)
    requires InputFrames(Some(session), data).Frames? && f in WireFrames(InputFrames(Some(session), data).wires)
    ensures f.kind == CONSOLE
  {
    hide WireFrames;
    hide DecodeWire;
    hide Chunks;
    hide Wire;
    hide ConsoleWires;
    hide D.IsWire;
    var wires := InputFrames(Some(session), data).wires;
    InWireFrames(wires, f);
    var i :| 0 <= i < |wires| && DecodeWire(wires[i]) == Some(f);
    D.ConsoleWiresAreWires(session.nonce, Chunks(data));
  }

  /** The host writes nothing while it starts something. */
  lemma StartWritesNothing(w: World, c: Call, env: Env)
    requires c.Request? || c.Connect? || c.Input?
    ensures var w' := HostStep(w, c, env); w'.line == w.line && w'.up == w.up
  {
    hide Carry;
    hide Arrived;
    hide RequestStart;
    hide ConnectStart;
    hide InputStart;
    CarryNothing(w.line, FrontIsTyped(w));
  }

  lemma InputKeeps(w: World, c: Call, env: Env)
    requires Inv(w) && c.Input? && CanHappen(w, HostCalls(c))
    ensures Inv(HostStep(w, c, env))
  {
    hide RequestsInv;
    hide LineInv;
    hide DeviceInv;
    hide InputFrames;
    hide HasInput;
    hide Carry;
    hide Arrived;
    StartWritesNothing(w, c, env);
    if Apply(w.host, c, env).1.started != [] {
      InputPushes(w, c, env);
    }
  }

  lemma InputPushes(w: World, c: Call, env: Env)
    requires RequestsInv(w) && LineInv(w.host.tx, w.typing, w.line)
    requires c.Input? && CanHappen(w, HostCalls(c)) && Apply(w.host, c, env).1.started != []
    ensures var w' := HostStep(w, c, env); RequestsInv(w') && LineInv(w'.host.tx, w'.typing, w'.line)
  {
    hide RequestsInv;
    hide LineInv;
    hide HasInput;
    hide Carry;
    hide Arrived;
    hide WireFrames;
    hide Chunks;
    hide ConsoleWires;
    hide D.AllWires;
    StartWritesNothing(w, c, env);
    var w' := HostStep(w, c, env);
    var frames := InputFrames(w.host.session, c.data).wires;
    var t := Transfer(c.key, InputLane, c.deadline, frames, 0, c.result);
    assert w'.host.tx == w.host.tx + [t];
    if w.host.session.None? {
      TypingKeepsRequests(w, c.key);
      PushKeepsRequests(w.(typing := w'.typing), w', t);
    } else {
      D.StartedFramesAreWires(w.host, c, env);
      WiresNotEmpty(frames);
      forall f | f in WireFrames(frames) ensures f.kind != REQUEST {
        ConsoleHasNoRequest(w.host.session.value, c.data, f);
      }
      PushKeepsRequests(w, w', t);
    }
  }

  lemma TypingKeepsRequests(w: World, key: string)
    requires RequestsInv(w) && LineInv(w.host.tx, w.typing, w.line) && NotQueued(key, w.host.tx)
    ensures var w' := w.(typing := w.typing + {key}); RequestsInv(w') && LineInv(w'.host.tx, w'.typing, w'.line)
  {
    hide Ids;
    hide QueuedFrames;
    hide Leftover;
    hide LineInv;
    hide Genuine;
    hide Exact;
    hide Distinct;
    hide NotQueued;
    hide Json.Unbroken;
    TypingElsewhere(w.host.tx, w.typing, w.line, key);
    TypingKeepsLine(w.host.tx, w.typing, w.line, key);
    assert Places(w.(typing := w.typing + {key})) == Places(w);
  }

  lemma HelloHasNoRequest(nonce: bv64)
    requires Encodable(HelloFrame(nonce))
    ensures forall f :: f in WireFrames([Wire(HelloFrame(nonce))]) ==> f.kind != REQUEST
  {
    hide Wire;
    hide DecodeWire;
    DecodeWireOfFrame(HelloFrame(nonce));
    WireFramesOne(Wire(HelloFrame(nonce)));
  }

  /** A session of its own: no request of it was ever submitted. */
  lemma ConnectFreshness(w: World, c: Call, env: Env)
    requires FreshInv(w.host, w.issued, w.submitted) && PendingInv(w.host, w.submitted)
    requires c.Connect? && c.nonce !in w.issued
    ensures FreshInv(Apply(w.host, c, env).0, w.issued + {c.nonce}, w.submitted)
    ensures PendingInv(Apply(w.host, c, env).0, w.submitted)
  {
    hide Wire;
    hide Below;
  }

  lemma ConnectPushes(w: World, c: Call, env: Env)
    requires RequestsInv(w) && LineInv(w.host.tx, w.typing, w.line)
    requires c.Connect? && CanHappen(w, HostCalls(c))
    ensures var w' := HostStep(w, c, env); RequestsInv(w') && LineInv(w'.host.tx, w'.typing, w'.line)
  {
    hide Carry;
    hide Arrived;
    hide WireFrames;
    hide Wire;
    hide LineInv;
    hide D.AllWires;
    hide Ids;
    hide QueuedFrames;
    hide Leftover;
    hide Genuine;
    hide Exact;
    hide Distinct;
    hide Json.Unbroken;
    StartWritesNothing(w, c, env);
    var w' := HostStep(w, c, env);
    if Apply(w.host, c, env).1.started != [] {
      var t := Transfer(c.key, ApplicationLane, c.deadline, [Wire(HelloFrame(c.nonce))], 0, Json.Null);
      assert w'.host.tx == w.host.tx + [t];
      D.StartedFramesAreWires(w.host, c, env);
      WiresNotEmpty(t.frames);
      HelloHasNoRequest(c.nonce);
      PushKeepsRequests(w, w', t);
    }
  }

  lemma ConnectKeeps(w: World, c: Call, env: Env)
    requires Inv(w) && c.Connect? && CanHappen(w, HostCalls(c))
    ensures Inv(HostStep(w, c, env))
  {
    hide RequestsInv;
    hide LineInv;
    hide DeviceInv;
    hide FreshInv;
    hide PendingInv;
    hide ConnectStart;
    ConnectPushes(w, c, env);
    ConnectFreshness(w, c, env);
  }

  /** A new request number: nothing with it is anywhere. */
  lemma NewIdIsFresh(w: World)
    requires Inv(w) && w.host.session.Some?
    ensures var id := Id(w.host.session.value.nonce, w.host.session.value.nextRequest);
            id !in w.submitted && id !in Places(w)
  {
    hide Ids;
    hide Places;
    hide Below;
    hide DeviceInv;
    var id := Id(w.host.session.value.nonce, w.host.session.value.nextRequest);
    assert !Below(id.request, id.request) by { BelowIsStrict(id.request); }
    if id in Places(w) {
      PlacesAreSubmitted(w, id);
    }
  }

  lemma BelowIsStrict(a: bv32)
    ensures !Below(a, a)
  {
  }

  lemma OneMore(places: multiset<Id>, id: Id)
    requires Distinct(places) && id !in places
    ensures Distinct(places + multiset{id})
  {
  }

  lemma SubmittedGrows(frames: seq<Frame>, submitted: map<Id, Submission>, id: Id, s: Submission)
    requires AllGenuine(frames, submitted) && id !in submitted
    ensures AllGenuine(frames, submitted[id := s])
  {
    forall f | f in frames ensures Genuine(f, submitted[id := s]) {
      assert Genuine(f, submitted);
    }
  }

  lemma ExactGrows(frames: seq<Frame>, submitted: map<Id, Submission>, id: Id, s: Submission)
    requires AllExact(frames, submitted) && id !in submitted
    ensures AllExact(frames, submitted[id := s])
  {
    forall f | f in frames ensures Exact(f, submitted[id := s]) {
      assert Exact(f, submitted);
    }
  }

  lemma FirstRequestNumber(w: World)
    requires Inv(w) && w.host.session.Some?
    ensures w.host.session.value.nextRequest != 0
  {
    hide RequestsInv;
    hide DeviceInv;
    hide DownInv;
    hide LineInv;
    hide PendingInv;
  }

  /** What a started request adds: one new id, its submission and one queued frame. */
  lemma RequestStarts(w: World, c: Call, env: Env) returns (frame: Frame)
    requires Inv(w) && c.Request? && CanHappen(w, HostCalls(c)) && Apply(w.host, c, env).1.started != []
    ensures w.host.session.Some? && frame.kind == REQUEST && Encodable(frame)
    ensures IdOf(frame) == Id(w.host.session.value.nonce, w.host.session.value.nextRequest)
    ensures Json.Unbroken(frame.payload) && Live(frame)
    ensures var w' := HostStep(w, c, env);
            && w'.host.tx
            == w.host.tx + [Transfer(c.key, ApplicationLane, c.deadline, [Wire(frame)], 0, Json.Null)]
            && w'.submitted == w.submitted[IdOf(frame) := Submission(c.key, frame.payload)]
            && w' == w.(host := w'.host, submitted := w'.submitted)
            && w'.host.session == Some(w.host.session.value.(nextRequest := Successor(frame.request)))
            && w'.host.pending == Some(Pending(c.key, c.deadline, RESPONSE, frame.request))
            && frame.request != LAST_REQUEST
  {
    hide Inv;
    hide Wire;
    hide Carry;
    hide Arrived;
    hide Json.Unbroken;
    hide Json.Print;
    hide Json.Validate;
    hide Json.Scan;
    StartWritesNothing(w, c, env);
    FirstRequestNumber(w);
    Json.CommandsPassTheScan(c.command, env.inRange);
    Json.CommandHasText(c.command);
    frame := PreparedRequest(w.host.session.value, c.command, env.inRange).1.frame;
    Json.CutCommandsFail(c.command);
  }

  /** And one place where that request is. */
  lemma RequestPlaced(w: World, w': World, frame: Frame, c: Call)
    requires LineInv(w.host.tx, w.typing, w.line) && c.Request? && c.key !in w.typing
    requires Live(frame) && Encodable(frame)
    requires w' == w.(host := w'.host, submitted := w'.submitted)
    requires w'.host.tx == w.host.tx + [Transfer(c.key, ApplicationLane, c.deadline, [Wire(frame)], 0, Json.Null)]
    ensures LineInv(w'.host.tx, w.typing, w.line)
    ensures Leftover(w'.host.tx, w.typing, w.line) == Leftover(w.host.tx, w.typing, w.line)
    ensures QueuedFrames(w'.host.tx, w.typing) == QueuedFrames(w.host.tx, w.typing) + [frame]
    ensures Places(w') == Places(w) + multiset{IdOf(frame)}
  {
    hide Ids;
    hide LineInv;
    hide QueuedFrames;
    hide Leftover;
    hide WireFrames;
    hide Wire;
    hide DecodeWire;
    hide Encodable;
    hide Live;
    var t := Transfer(c.key, ApplicationLane, c.deadline, [Wire(frame)], 0, Json.Null);
    PushedFrames(w.host.tx, t, w.typing);
    D.WireIsWire(frame);
    WireFramesOne(Wire(frame));
    IdsOne(frame);
    T.WireNotEmpty(frame);
    PushKeepsLine(w.host.tx, w.typing, w.line, t);
  }

  lemma RequestFreshness(w: World, w': World, frame: Frame, key: string, deadline: nat)
    requires FreshInv(w.host, w.issued, w.submitted) && w.host.session.Some?
    requires IdOf(frame) == Id(w.host.session.value.nonce, w.host.session.value.nextRequest)
    requires frame.request != LAST_REQUEST && w'.issued == w.issued
    requires w'.submitted == w.submitted[IdOf(frame) := Submission(key, frame.payload)]
    requires w'.host.session == Some(w.host.session.value.(nextRequest := Successor(frame.request)))
    requires w'.host.pending == Some(Pending(key, deadline, RESPONSE, frame.request))
    ensures FreshInv(w'.host, w'.issued, w'.submitted) && PendingInv(w'.host, w'.submitted)
  {
    hide Below;
    hide Successor;
    forall id | id in w'.submitted && id.session == frame.session
      ensures Below(id.request, Successor(frame.request))
    {
      Successors(id.request, frame.request);
    }
    Successors(frame.request, frame.request);
  }

  lemma StartedRequestKeeps(w: World, c: Call, env: Env)
    requires Inv(w) && c.Request? && CanHappen(w, HostCalls(c)) && Apply(w.host, c, env).1.started != []
    ensures Inv(HostStep(w, c, env))
  {
    hide Apply;
    hide Allowed;
    hide HostStep;
    hide Ids;
    hide QueuedFrames;
    hide Leftover;
    hide LineInv;
    hide DeviceInv;
    hide FreshInv;
    hide PendingInv;
    hide Distinct;
    hide Genuine;
    hide Wire;
    hide Encodable;
    hide Json.Unbroken;
    var frame := RequestStarts(w, c, env);
    var w' := HostStep(w, c, env);
    var s := Submission(c.key, frame.payload);
    RequestFreshness(w, w', frame, c.key, c.deadline);
    RequestPlaced(w, w', frame, c);
    NewIdIsFresh(w);
    OneMore(Places(w), IdOf(frame));
    hide Places;
    ExactGrows(QueuedFrames(w.host.tx, w.typing), w.submitted, IdOf(frame), s);
    SubmittedGrows(Leftover(w.host.tx, w.typing, w.line), w.submitted, IdOf(frame), s);
    SubmittedGrows(w.up, w.submitted, IdOf(frame), s);
    SubmittedGrows(w.device.requests, w.submitted, IdOf(frame), s);
    ExactGrows(w.handled, w.submitted, IdOf(frame), s);
  }

  lemma RequestKeeps(w: World, c: Call, env: Env)
    requires Inv(w) && c.Request? && CanHappen(w, HostCalls(c))
    ensures Inv(HostStep(w, c, env))
  {
    hide Inv;
    hide Apply;
    hide HostStep;
    if Apply(w.host, c, env).1.started == [] {
      RejectedRequestKeeps(w, c, env);
    } else {
      StartedRequestKeeps(w, c, env);
    }
  }

  /** A rejected request may use up a number. */
  lemma RejectedRequest(w: World, c: Call, env: Env)
    requires FreshInv(w.host, w.issued, w.submitted) && PendingInv(w.host, w.submitted)
    requires c.Request? && Apply(w.host, c, env).1.started == []
    ensures var h := Apply(w.host, c, env).0;
            && h.tx == w.host.tx && FreshInv(h, w.issued, w.submitted) && PendingInv(h, w.submitted)
    ensures Submit(w, c, false, env) == w.submitted
  {
    hide Json.Payload;
    hide Below;
    hide Successor;
    hide Wire;
    hide Encodable;
    if w.host.session.Some? {
      var next := w.host.session.value.nextRequest;
      if next != LAST_REQUEST {
        forall id | id in w.submitted && id.session == w.host.session.value.nonce
          ensures Below(id.request, Successor(next))
        {
          Successors(id.request, next);
        }
        Successors(next, next);
      }
    }
  }

  lemma RejectedRequestKeeps(w: World, c: Call, env: Env)
    requires Inv(w) && c.Request? && Apply(w.host, c, env).1.started == []
    ensures Inv(HostStep(w, c, env))
  {
    hide LineInv;
    hide RequestsInv;
    hide FreshInv;
    hide PendingInv;
    hide DeviceInv;
    hide Apply;
    hide Submit;
    hide Carry;
    hide Arrived;
    StartWritesNothing(w, c, env);
    RejectedRequest(w, c, env);
    SameRequests(w, HostStep(w, c, env));
  }

  lemma SameRequests(w: World, w': World)
    requires RequestsInv(w) && w'.host.tx == w.host.tx && w' == w.(host := w'.host)
    ensures RequestsInv(w')
  {
    hide Ids;
    hide QueuedFrames;
    hide Leftover;
    hide Genuine;
    hide Exact;
    hide Distinct;
    hide Json.Unbroken;
    assert Places(w') == Places(w);
  }

  // ---------- the other steps keep the invariant ----------

  lemma ReceivesKeeps(w: World, step: Step, env: Env)
    requires Inv(w) && step.HostReceives? && CanHappen(w, step)
    ensures Inv(Next(w, step, env))
  {
    hide Ids;
    hide QueuedFrames;
    hide Leftover;
    hide LineInv;
    hide Exact;
    hide Json.Unbroken;
    hide DeviceInv;
    hide FreshInv;
    hide PendingInv;
    hide FeedItemsStep;
    FeedRecedes(w.host, step.items, step.before, step.after, env.parse);
    var w' := Next(w, step, env);
    RecedesKeeps(w.host, w'.host, w.issued, w.submitted);
    assert Places(w') == Places(w);
  }

  lemma WithoutGenuine(frames: seq<Frame>, i: nat, submitted: map<Id, Submission>)
    requires i < |frames| && AllGenuine(frames, submitted)
    ensures AllGenuine(Without(frames, i), submitted) && Genuine(frames[i], submitted)
  {
    hide Genuine;
    assert frames[i] in frames;
    assert forall f :: f in Without(frames, i) ==> f in frames;
  }

  lemma LostKeeps(w: World, i: nat)
    requires Inv(w) && i < |w.up|
    ensures Inv(w.(up := Without(w.up, i)))
    ensures Places(w) == Places(w.(up := Without(w.up, i))) + RequestId(w.up[i])
  {
    hide Ids;
    hide QueuedFrames;
    hide Leftover;
    hide LineInv;
    hide Exact;
    hide Json.Unbroken;
    hide DeviceInv;
    hide RequestId;
    hide Genuine;
    hide Without;
    IdsWithout(w.up, i);
    WithoutGenuine(w.up, i, w.submitted);
    var w' := w.(up := Without(w.up, i));
    assert Places(w) == Places(w') + RequestId(w.up[i]);
    FewerDistinct(Places(w), Places(w'));
  }

  /** A control frame the device may send: it answers what was handled or asked. */
  lemma ProduceKeeps(w: World, d: Device, f: Frame)
    requires Inv(w) && Justified(f, w.handled)
    requires d.control == w.device.control && (d.running == w.device.running || d.running.None?)
    requires d.requests == w.device.requests || (w.device.requests != [] && d.requests == w.device.requests[1..])
    ensures Inv(Produce(w, d, f))
  {
    hide Ids;
    hide QueuedFrames;
    hide Leftover;
    hide LineInv;
    hide Exact;
    hide Live;
    hide Json.Unbroken;
    hide FreshInv;
    hide PendingInv;
    hide Genuine;
    hide Justified;
    hide Distinct;
    hide DownInv;
    var w' := Produce(w, d, f);
    if d.requests != w.device.requests {
      FrontIds(w.device.requests);
    }
    FewerDistinct(Places(w), Places(w'));
    ProducedGrows(w.down, w.sent, w.printed, w.produced, f);
  }

  lemma ProducedGrows(down: Line, sent: set<Frame>, printed: set<Frame>, produced: set<Frame>, f: Frame)
    requires DownInv(down, sent, printed, produced)
    ensures DownInv(down, sent, printed, produced + {f})
  {
    hide Left;
    hide CutOf;
    forall g | FromDevice(g, produced) ensures FromDevice(g, produced + {f}) {
      if g.kind != EVENT && g.kind != CONSOLE {
        var h :| h in produced && CutOf(g, h);
        assert h in produced + {f};
      }
    }
  }

  lemma FrontIds(frames: seq<Frame>)
    requires frames != []
    ensures Ids(frames) == RequestId(frames[0]) + Ids(frames[1..])
  {
    hide Ids;
    hide RequestId;
    IdsWithout(frames, 0);
    assert Without(frames, 0) == frames[1..];
  }

  lemma QueueKeeps(w: World, f: Frame)
    requires Inv(w) && f.kind == REQUEST && f.request != 0
    requires Genuine(f, w.submitted) && Distinct(Places(w) + RequestId(f))
    ensures Inv(w.(device := w.device.(requests := w.device.requests + [f])))
  {
    hide Ids;
    hide QueuedFrames;
    hide Leftover;
    hide LineInv;
    hide Exact;
    hide Json.Unbroken;
    hide FreshInv;
    hide PendingInv;
    hide Genuine;
    hide Distinct;
    hide RequestId;
    hide Justified;
    IdsConcat(w.device.requests, [f]);
    IdsOne(f);
    var w' := w.(device := w.device.(requests := w.device.requests + [f]));
    assert Places(w') == Places(w) + RequestId(f);
  }

  lemma DeviceReceivesKeeps(w: World, i: nat, text: seq<bv8>)
    requires Inv(w) && i < |w.up|
    ensures Inv(Receive(w.(up := Without(w.up, i)), w.up[i], text))
  {
    hide Inv;
    hide Without;
    hide Produce;
    hide Places;
    hide RequestId;
    hide Genuine;
    hide Distinct;
    var f := w.up[i];
    var w1 := w.(up := Without(w.up, i));
    LostKeeps(w, i);
    UpGenuine(w, i);
    if f.kind == HELLO && f.request == 0 && f.payload == [] {
      ProduceKeeps(w1, w1.device.(session := f.session), Frame(HELLO_ACK, f.session, 0, text));
    } else if f.session == w1.device.session && f.kind == REQUEST && f.request != 0 {
      if |w1.device.requests| < REQUEST_QUEUE {
        QueueKeeps(w1, f);
      } else {
        ProduceKeeps(w1, w1.device, ErrorFrame(f, text));
      }
    }
  }

  lemma UpGenuine(w: World, i: nat)
    requires Inv(w) && i < |w.up|
    ensures Genuine(w.up[i], w.submitted) && Distinct(Places(w))
  {
    hide Distinct;
    hide Places;
    hide Genuine;
    assert w.up[i] in w.up;
  }

  lemma NextRequest(w: World)
    requires Inv(w) && w.device.requests != []
    ensures var f := w.device.requests[0]; Genuine(f, w.submitted) && f.kind == REQUEST && f.request != 0
  {
    hide Distinct;
    hide Places;
    hide Genuine;
    assert w.device.requests[0] in w.device.requests;
  }

  lemma DropRequestKeeps(w: World)
    requires Inv(w) && w.device.requests != []
    ensures Inv(w.(device := w.device.(requests := w.device.requests[1..])))
  {
    hide Ids;
    hide QueuedFrames;
    hide Leftover;
    hide LineInv;
    hide Exact;
    hide Json.Unbroken;
    hide FreshInv;
    hide PendingInv;
    hide Genuine;
    hide Justified;
    hide Distinct;
    FrontIds(w.device.requests);
    var w' := w.(device := w.device.(requests := w.device.requests[1..]));
    FewerDistinct(Places(w), Places(w'));
  }

  /** The handler is called for the front request. */
  lemma HandleKeeps(w: World)
    requires Inv(w) && w.device.requests != []
    requires Live(w.device.requests[0]) && Exact(w.device.requests[0], w.submitted)
    ensures var f := w.device.requests[0];
            Inv(w.(device := w.device.(requests := w.device.requests[1..], running := Some(f)),
                   handled := w.handled + [f]))
  {
    hide Ids;
    hide QueuedFrames;
    hide Leftover;
    hide LineInv;
    hide Exact;
    hide Json.Unbroken;
    hide FreshInv;
    hide PendingInv;
    hide Genuine;
    hide Distinct;
    hide RequestId;
    hide Justified;
    var f := w.device.requests[0];
    var w' := w.(device := w.device.(requests := w.device.requests[1..], running := Some(f)),
                 handled := w.handled + [f]);
    FrontIds(w.device.requests);
    IdsConcat(w.handled, [f]);
    IdsOne(f);
    assert Places(w') == Places(w);
    forall g | g in w.produced ensures Justified(g, w'.handled) {
      JustifiedGrows(g, w.handled, f);
    }
  }

  lemma JustifiedGrows(g: Frame, handled: seq<Frame>, f: Frame)
    requires Justified(g, handled)
    ensures Justified(g, handled + [f])
  {
  }

  lemma DispatchKeeps(w: World, wellFormed: bool, text: seq<bv8>)
    requires Inv(w) && w.device.running.None? && w.device.requests != []
    requires wellFormed ==> w.device.requests[0].payload != []
    ensures Inv(Dispatch(w, wellFormed, text))
  {
    hide Json.Scan;
    hide Exact;
    hide Inv;
    hide Produce;
    var f := w.device.requests[0];
    NextRequest(w);
    if f.session != w.device.session {
      DropRequestKeeps(w);
    } else if !Json.Scan(f.payload, false, 0) || !wellFormed {
      ProduceKeeps(w, w.device.(requests := w.device.requests[1..]), ErrorFrame(f, text));
    } else {
      assert Live(f);
      HandleKeeps(w);
    }
  }

  lemma FinishKeeps(w: World, ok: bool, text: seq<bv8>)
    requires Inv(w) && w.device.running.Some?
    ensures Inv(Finish(w, ok, text))
  {
    hide Produce;
    hide Places;
    hide Distinct;
    hide Genuine;
    hide LineInv;
    hide DownInv;
    hide Json.Unbroken;
    hide Json.Scan;
    var f := w.device.running.value;
    assert Live(f);
    ProduceKeeps(w, w.device.(running := None),
                 if ok && |text| <= MAX_PAYLOAD then Frame(RESPONSE, f.session, f.request, text)
                 else ErrorFrame(f, text));
  }

  /** Steps that change neither requests nor handled frames. */
  lemma QuietDeviceKeeps(w: World, w': World)
    requires Inv(w) && w' == w.(device := w'.device, down := w'.down, sent := w'.sent, printed := w'.printed)
    requires w'.device.requests == w.device.requests
    requires DeviceInv(w'.device, w.produced, w.handled) && DownInv(w'.down, w'.sent, w'.printed, w.produced)
    ensures Inv(w')
  {
    hide Ids;
    hide QueuedFrames;
    hide Leftover;
    hide LineInv;
    hide Exact;
    hide Live;
    hide Json.Unbroken;
    hide DeviceInv;
    hide DownInv;
    hide Distinct;
    assert Places(w') == Places(w);
  }

  lemma ResetKeeps(w: World)
    requires Inv(w)
    ensures Inv(w.(device := BOOTED))
  {
    hide Ids;
    hide QueuedFrames;
    hide Leftover;
    hide LineInv;
    hide Exact;
    hide Json.Unbroken;
    hide Distinct;
    hide FreshInv;
    hide PendingInv;
    hide Genuine;
    hide Justified;
    NoWireFrames();
    FewerDistinct(Places(w), Places(w.(device := BOOTED)));
  }

  /** Every step of host, wire and device keeps the invariant. */
  lemma StepKeeps(w: World, step: Step, env: Env)
    requires Inv(w) && Enabled(w, step, env)
    ensures Inv(Next(w, step, env))
  {
    hide TypesNoCopy;
    hide Inv;
    hide HostStep;
    hide Receive;
    hide Dispatch;
    hide Finish;
    match step {
      case HostCalls(c) =>
        match c {
          case Request(_, _, _) => RequestKeeps(w, c, env);
          case Connect(_, _, _) => ConnectKeeps(w, c, env);
          case Input(_, _, _, _) => InputKeeps(w, c, env);
          case TickCall(_, _, _) => TickKeeps(w, c, env);
          case AbortCall(_) => AbortKeeps(w, c, env);
          case _ =>
        }
      case HostReceives(_, _, _) => ReceivesKeeps(w, step, env);
      case FrameLost(i) => LostKeeps(w, i);
      case DeviceReceives(i, text) => DeviceReceivesKeeps(w, i, text);
      case DeviceDispatches(wellFormed, text) => DispatchKeeps(w, wellFormed, text);
      case DeviceFinishes(ok, text) => FinishKeeps(w, ok, text);
      case DeviceResets => ResetKeeps(w);
      case _ => OutputKeeps(w, step, env);
    }
  }

  // ---------- the wire to the host ----------

  /** Part of a frame of the device's. */
  lemma FrameOutput(w: World, f: Frame, n: nat)
    requires DownInv(w.down, w.sent, w.printed, w.produced) && FromDevice(f, w.produced)
    requires Encodable(f) && 0 < n <= |Wire(f)|
    ensures var w' := Output(w, Wire(f)[..n], false); DownInv(w'.down, w'.sent, w'.printed, w.produced)
  {
    hide Wire;
    hide Run;
    hide Carry;
    hide Arrived;
    hide Ending;
    hide TypedFrames;
    hide CutOf;
    FrameArrives(w.down, f, 0, n);
    assert Wire(f)[0..n] == Wire(f)[..n];
    FrameEndsClean(f);
    forall g | g in Ending(Run(FRESH, Wire(f)[..n])) ensures FromDevice(g, w.produced) {
      if n < |Wire(f)| {
        CutFrame(f, n, g);
        CutIsFromDevice(g, f, w.produced);
      }
    }
  }

  lemma CutIsFromDevice(g: Frame, f: Frame, produced: set<Frame>)
    requires FromDevice(f, produced) && CutOf(g, f)
    ensures FromDevice(g, produced)
  {
    if f.kind != EVENT && f.kind != CONSOLE {
      var h :| h in produced && CutOf(f, h);
      CutOfCut(g, f, h);
    }
  }

  lemma CutOfCut(g: Frame, f: Frame, h: Frame)
    requires CutOf(g, f) && CutOf(f, h)
    ensures CutOf(g, h)
  {
  }

  lemma NoOutput(w: World, raw: bool)
    ensures Output(w, [], raw) == w
  {
    hide Carry;
    hide Arrived;
    hide TypedFrames;
    CarryNothing(w.down, raw);
    assert SetOf([]) == {};
  }

  /** Text that is no frame of the device's. */
  lemma RawOutput(w: World, text: seq<bv8>)
    requires DownInv(w.down, w.sent, w.printed, w.produced)
    ensures var w' := Output(w, text, true); DownInv(w'.down, w'.sent, w'.printed, w.produced)
  {
    hide Carry;
    hide Arrived;
    hide Left;
    hide TypedFrames;
    hide FromDevice;
    TypedBytes(w.down, text);
  }

  lemma OutputKeepsDown(w: World, f: Frame, n: nat)
    requires DownInv(w.down, w.sent, w.printed, w.produced) && FromDevice(f, w.produced) && n <= |Encoded(f)|
    ensures var w' := Output(w, Encoded(f)[..n], false); DownInv(w'.down, w'.sent, w'.printed, w.produced)
  {
    hide Output;
    hide Wire;
    hide DownInv;
    hide FromDevice;
    if n == 0 {
      NoOutput(w, false);
      assert Encoded(f)[..n] == [];
    } else {
      FrameOutput(w, f, n);
    }
  }

  lemma TransmitKeeps(w: World, n: nat)
    requires Inv(w) && w.device.control != [] && n <= |NextControl(w.device)|
    ensures Inv(Transmit(w, n))
  {
    hide RequestsInv;
    hide LineInv;
    hide FreshInv;
    hide PendingInv;
    hide DownInv;
    hide Encoded;
    hide CutOf;
    hide Justified;
    var f := w.device.control[0];
    var w1 := w.(device := w.device.(control := w.device.control[1..]));
    if f.session == w.device.session {
      ProducedIsFromDevice(f, w.produced);
      OutputKeepsDown(w1, f, n);
    } else {
      NoOutput(w1, false);
    }
    QuietDeviceKeeps(w, Transmit(w, n));
  }

  lemma ProducedIsFromDevice(f: Frame, produced: set<Frame>)
    requires f in produced || f.kind == EVENT
    ensures FromDevice(f, produced)
  {
    assert CutOf(f, f);
  }

  lemma PrintKeeps(w: World, text: seq<bv8>, n: nat)
    requires Inv(w) && n <= |ConsoleBytes(w.device, text)|
    ensures Inv(PrintText(w, text, n))
  {
    hide RequestsInv;
    hide LineInv;
    hide FreshInv;
    hide PendingInv;
    hide DeviceInv;
    hide DownInv;
    hide Encoded;
    if w.device.session == 0 {
      RawOutput(w, text[..n]);
    } else {
      OutputKeepsDown(w, ConsoleFrame(w.device.session, text), n);
    }
    QuietDeviceKeeps(w, PrintText(w, text, n));
  }

  /** Sending, printing and publishing, each cut off anywhere. */
  lemma OutputKeeps(w: World, step: Step, env: Env)
    requires Inv(w) && CanHappen(w, step)
    requires step.DeviceTransmits? || step.DevicePrints? || step.DevicePublishes?
    ensures Inv(Next(w, step, env))
  {
    hide RequestsInv;
    hide FreshInv;
    hide PendingInv;
    hide LineInv;
    hide DownInv;
    hide Justified;
    hide NextControl;
    hide ConsoleBytes;
    hide Transmit;
    hide PrintText;
    match step {
      case DeviceTransmits(n) => TransmitKeeps(w, n);
      case DevicePrints(text, n) => PrintKeeps(w, text, n);
      case DevicePublishes(_) => QuietDeviceKeeps(w, Next(w, step, env));
      case _ =>
    }
  }

  // ---------- runs ----------

  predicate Possible(steps: seq<Step>, env: Env)
    decreases |steps|, 0
  {
    steps == [] ||
    var n := |steps| - 1;
    Possible(steps[..n], env) && Enabled(WorldAfter(steps[..n], env), steps[n], env)
  }

  function WorldAfter(steps: seq<Step>, env: Env): World
    requires Possible(steps, env)
    decreases |steps|, 1
  {
    if steps == [] then START else Next(WorldAfter(steps[..|steps| - 1], env), steps[|steps| - 1], env)
  }

  lemma {:induction false} RunKeeps(steps: seq<Step>, env: Env)
    requires Possible(steps, env)
    ensures Inv(WorldAfter(steps, env))
  {
    hide Inv;
    hide Next;
    hide Enabled;
    if steps == [] {
      StartInv();
    } else {
      var n := |steps| - 1;
      RunKeeps(steps[..n], env);
      StepKeeps(WorldAfter(steps[..n], env), steps[n], env);
    }
  }

  // ---------- each command reaches the handler at most once ----------

  lemma {:induction false} CountedTwice(frames: seq<Frame>, i: nat, j: nat)
    requires i < j < |frames| && Live(frames[i]) && Live(frames[j])
    requires IdOf(frames[i]) == IdOf(frames[j])
    ensures Ids(frames)[IdOf(frames[i])] >= 2
  {
    hide Ids;
    IdsWithout(frames, j);
    IdsWithout(Without(frames, j), i);
    assert Without(frames, j)[i] == frames[i];
  }

  lemma PartOnce(places: multiset<Id>, part: multiset<Id>, id: Id)
    requires Distinct(places) && part <= places
    ensures part[id] <= 1
  {
  }

  lemma HandledOnce(w: World, i: nat, j: nat)
    requires Inv(w) && i < j < |w.handled|
    ensures IdOf(w.handled[i]) != IdOf(w.handled[j])
  {
    hide Ids;
    hide Live;
    hide LineInv;
    hide FreshInv;
    hide PendingInv;
    hide DeviceInv;
    hide DownInv;
    assert w.handled[i] in w.handled && w.handled[j] in w.handled;
    PartOnce(Places(w), Ids(w.handled), IdOf(w.handled[i]));
    if IdOf(w.handled[i]) == IdOf(w.handled[j]) {
      CountedTwice(w.handled, i, j);
    }
  }

  lemma HandledIsSubmitted(w: World, f: Frame)
    requires Inv(w) && f in w.handled
    ensures Live(f) && Exact(f, w.submitted)
  {
    hide Ids;
    hide Live;
    hide LineInv;
    hide FreshInv;
    hide PendingInv;
    hide DeviceInv;
    hide DownInv;
  }

  /**
   In every run, no two calls of the handler are for the same request, and each is given the payload that was
   submitted under that request.
   */
  lemma HandledAtMostOnce(steps: seq<Step>, env: Env, i: nat, j: nat)
    requires Possible(steps, env) && i < j < |WorldAfter(steps, env).handled|
    ensures var w := WorldAfter(steps, env);
            && IdOf(w.handled[i]) != IdOf(w.handled[j])
            && IdOf(w.handled[i]) in w.submitted
            && w.submitted[IdOf(w.handled[i])].payload == w.handled[i].payload
  {
    hide Inv;
    hide WorldAfter;
    hide Json.Scan;
    var w := WorldAfter(steps, env);
    RunKeeps(steps, env);
    HandledOnce(w, i, j);
    HandledIsSubmitted(w, w.handled[i]);
  }

  /** Every started request gets a number of its own: two submissions are never one request. */
  lemma SubmissionsAreDistinct(steps: seq<Step>, env: Env, c: Call) returns (frame: Frame)
    requires Possible(steps, env) && c.Request? && CanHappen(WorldAfter(steps, env), HostCalls(c))
    requires Apply(WorldAfter(steps, env).host, c, env).1.started != []
    ensures var (w, w') := (WorldAfter(steps, env), HostStep(WorldAfter(steps, env), c, env));
            && IdOf(frame) !in w.submitted && IdOf(frame) !in Places(w)
            && w'.submitted == w.submitted[IdOf(frame) := Submission(c.key, frame.payload)]
  {
    hide Inv;
    hide Places;
    hide WorldAfter;
    hide HostStep;
    hide Apply;
    var w := WorldAfter(steps, env);
    RunKeeps(steps, env);
    frame := RequestStarts(w, c, env);
    NewIdIsFresh(w);
  }
}
