/**
 Application sessions of src/application.rs: negotiation, request numbering, and what a session makes of the
 items its decoder reports. A parsed payload is given by the parameter parse.
 */
module Application {
  import opened Mux
  import opened MuxDecoder
  import Json

  datatype SessionState = SessionState(
    nonce: bv64,
    nextRequest: bv32,
    decoder: State,
    info: Json.Value,
    valid: bool)

  datatype Output = Console(data: seq<bv8>) | Event(value: Json.Value) | CorruptFrame

  /** The frame kind and request number a pending call waits for. */
  datatype Expected = Expected(kind: bv8, request: bv32)

  datatype Reply = Answer(value: Json.Value) | Refusal(value: Json.Value)

  datatype SessionError =
    | SessionLost
    | InvalidCommand
    | RequestIdsExhausted
    | Unframed
    | InvalidResponse
    | CannotEncode

  datatype Prepared = Ready(frame: Frame) | Rejected(error: SessionError)

  datatype ConsoleFrames = Frames(wires: seq<seq<bv8>>) | NoFrames(error: SessionError)

  const LAST_REQUEST: bv32 := 0xffffffff

  function Successor(id: bv32): bv32 {
    id + 1
  }

  function Begin(nonce: bv64): SessionState {
    SessionState(nonce, 1, FRESH, Json.Null, false)
  }

  function HelloFrame(nonce: bv64): Frame {
    Frame(HELLO, nonce, 0, [])
  }

  const PROTOCOL_KEY: seq<bv8> := [0x70, 0x72, 0x6f, 0x74, 0x6f, 0x63, 0x6f, 0x6c]
  const ONE: seq<bv8> := [0x31]

  function Lookup(fields: seq<Json.Field>, key: seq<bv8>): Option<Json.Value> {
    if fields == [] then None
    else if fields[0].key == key then Some(fields[0].value)
    else Lookup(fields[1..], key)
  }

  /** The handshake identity names protocol 1. */
  predicate SpeaksProtocolOne(info: Json.Value) {
    info.Object? &&
    var p := Lookup(info.fields, PROTOCOL_KEY);
    p.Some? && p.value.Number? && p.value.digits == ONE
  }

  // ---------- requests and console input ----------

  function PreparedRequest(s: SessionState, c: Json.Command, inRange: seq<bv8> -> bool): (SessionState, Prepared) {
    if !s.valid then (s, Rejected(SessionLost))
    else
      var payload := Json.Payload(c, inRange);
      if payload.None? then (s, Rejected(InvalidCommand))
      else if s.nextRequest == LAST_REQUEST then (s, Rejected(RequestIdsExhausted))
      else (s.(nextRequest := Successor(s.nextRequest)), Ready(Frame(REQUEST, s.nonce, s.nextRequest, payload.value)))
  }

  const CHUNK := 256

  function Chunks(data: seq<bv8>): (r: seq<seq<bv8>>)
    ensures Join(r) == data
    ensures forall i :: 0 <= i < |r| ==> 0 < |r[i]| <= CHUNK
    ensures r == [] <==> data == []
    decreases |data|
  {
    if data == [] then []
    else if |data| <= CHUNK then
      assert Join([data]) == data;
      [data]
    else
      assert data[..CHUNK] + data[CHUNK..] == data;
      [data[..CHUNK]] + Chunks(data[CHUNK..])
  }

  function ConsoleFrame(nonce: bv64, chunk: seq<bv8>): Frame {
    Frame(CONSOLE, nonce, 0, chunk)
  }

  lemma ConsoleFrameEncodable(nonce: bv64, chunk: seq<bv8>)
    requires |chunk| <= CHUNK
    ensures Encodable(ConsoleFrame(nonce, chunk)) <==> nonce != 0
  {
  }

  function ConsoleWires(nonce: bv64, chunks: seq<seq<bv8>>): (r: seq<seq<bv8>>)
    ensures |r| == |chunks|
    ensures forall i :: 0 <= i < |r| ==> r[i] == Wire(ConsoleFrame(nonce, chunks[i]))
  {
    seq(|chunks|, i requires 0 <= i < |chunks| => Wire(ConsoleFrame(nonce, chunks[i])))
  }

  function PreparedConsole(s: SessionState, data: seq<bv8>): ConsoleFrames {
    if !s.valid then NoFrames(SessionLost)
    else if s.nonce == 0 && data != [] then NoFrames(CannotEncode)
    else Frames(ConsoleWires(s.nonce, Chunks(data)))
  }

  // ---------- received items ----------

  /** The local variables of process while it goes through the items. */
  datatype Progress = Progress(outputs: seq<Output>, reply: Option<Reply>, reset: bool, failed: bool)

  predicate Matches(f: Frame, expected: Option<Expected>) {
    expected.Some? && f.request == expected.value.request && (f.kind == expected.value.kind || f.kind == ERROR)
  }

  function HandleFrame(p: Progress, f: Frame, expected: Option<Expected>, parse: seq<bv8> -> Option<Json.Value>)
    : Progress
  {
    if Matches(f, expected) then
      match parse(f.payload)
      case None => p.(failed := true)
      case Some(v) => p.(reply := Some(if f.kind == ERROR then Refusal(v) else Answer(v)))
    else if f.kind == CONSOLE then p.(outputs := p.outputs + [Console(f.payload)])
    else if f.kind == EVENT then
      match parse(f.payload)
      case None => p.(outputs := p.outputs + [CorruptFrame])
      case Some(v) => p.(outputs := p.outputs + [Event(v)])
    else p
  }

  function HandleItem(p: Progress, item: Decoded, nonce: bv64, valid: bool, expected: Option<Expected>,
                      parse: seq<bv8> -> Option<Json.Value>): Progress
  {
    if p.failed then p
    else match item
      case Raw(data) => p.(outputs := p.outputs + [Console(data)], reset := p.reset || valid)
      case Corrupt => p.(outputs := p.outputs + [CorruptFrame])
      case FrameItem(f) => if f.session == nonce then HandleFrame(p, f, expected, parse) else p
  }

  function Handle(items: seq<Decoded>, nonce: bv64, valid: bool, expected: Option<Expected>,
                  parse: seq<bv8> -> Option<Json.Value>): Progress
  {
    if items == [] then Progress([], None, false, false)
    else HandleItem(Handle(items[..|items| - 1], nonce, valid, expected, parse),
                    items[|items| - 1], nonce, valid, expected, parse)
  }

  datatype Processed = Processed(outputs: seq<Output>, reply: Option<Reply>, error: Option<SessionError>)

  function Verdict(p: Progress): Processed {
    if p.failed then Processed(p.outputs, None, Some(InvalidResponse))
    else if p.reset then Processed(p.outputs, None, Some(Unframed))
    else Processed(p.outputs, p.reply, None)
  }

  function ProcessItems(s: SessionState, items: seq<Decoded>, expected: Option<Expected>,
                        parse: seq<bv8> -> Option<Json.Value>): (SessionState, Processed)
  {
    var p := Handle(items, s.nonce, s.valid, expected, parse);
    (s.(valid := s.valid && !(p.reset && !p.failed)), Verdict(p))
  }

  /** process: the items of the bytes, handled in order. */
  function ProcessBytes(s: SessionState, bytes: seq<bv8>, expected: Option<Expected>,
                        parse: seq<bv8> -> Option<Json.Value>): (SessionState, Processed)
  {
    ProcessItems(s.(decoder := Run(s.decoder, bytes)), Items(s.decoder, bytes), expected, parse)
  }

  /** A frame a reply was taken from. */
  predicate RepliesWith(f: Frame, nonce: bv64, expected: Expected, reply: Reply,
                        parse: seq<bv8> -> Option<Json.Value>)
  {
    && f.session == nonce
    && f.request == expected.request
    && parse(f.payload) == Some(reply.value)
    && match reply
       case Answer(_) => f.kind == expected.kind && f.kind != ERROR
       case Refusal(_) => f.kind == ERROR
  }

  lemma {:induction false} HandledReplyHasSource(items: seq<Decoded>, nonce: bv64, valid: bool,
                                                 expected: Option<Expected>,
                                                 parse: seq<bv8> -> Option<Json.Value>)
    returns (f: Frame)
    requires Handle(items, nonce, valid, expected, parse).reply.Some?
    ensures expected.Some? && FrameItem(f) in items
    ensures RepliesWith(f, nonce, expected.value, Handle(items, nonce, valid, expected, parse).reply.value, parse)
  {
    var n := |items| - 1;
    var before := Handle(items[..n], nonce, valid, expected, parse);
    if items[n].FrameItem? && !before.failed && items[n].frame.session == nonce
       && Matches(items[n].frame, expected) && parse(items[n].frame.payload).Some? {
      f := items[n].frame;
    } else {
      f := HandledReplyHasSource(items[..n], nonce, valid, expected, parse);
    }
  }

  /**
   A reply is only ever taken from a frame of this very session and request: replies to an earlier request,
   or to an earlier session, never answer a later call.
   */
  lemma ReplyHasSource(s: SessionState, items: seq<Decoded>, expected: Option<Expected>,
                       parse: seq<bv8> -> Option<Json.Value>)
    returns (f: Frame)
    requires ProcessItems(s, items, expected, parse).1.reply.Some?
    ensures expected.Some? && FrameItem(f) in items
    ensures RepliesWith(f, s.nonce, expected.value, ProcessItems(s, items, expected, parse).1.reply.value, parse)
  {
    f := HandledReplyHasSource(items, s.nonce, s.valid, expected, parse);
  }

  // ---------- the Session class ----------

  method EncodeConsole(nonce: bv64, chunks: seq<seq<bv8>>) returns (r: ConsoleFrames)
    requires forall i :: 0 <= i < |chunks| ==> |chunks[i]| <= CHUNK
    ensures r == if nonce == 0 && chunks != [] then NoFrames(CannotEncode) else Frames(ConsoleWires(nonce, chunks))
  {
    hide Wire;
    hide Encodable;
    var wires: seq<seq<bv8>> := [];
    for i := 0 to |chunks|
      invariant |wires| == i && (i > 0 ==> nonce != 0)
      invariant forall j :: 0 <= j < i ==> wires[j] == Wire(ConsoleFrame(nonce, chunks[j]))
    {
      ConsoleFrameEncodable(nonce, chunks[i]);
      var e := Encode(ConsoleFrame(nonce, chunks[i]));
      if e.Err? {
        return NoFrames(CannotEncode);
      }
      wires := wires + [e.wire];
    }
    return Frames(wires);
  }

  class Session {
    const nonce: bv64
    var nextRequest: bv32
    const decoder: Decoder
    var info: Json.Value
    var valid: bool

    function Value(): SessionState
      reads this, decoder
    {
      SessionState(nonce, nextRequest, decoder.Value(), info, valid)
    }

    predicate Valid()
      reads decoder
    {
      Inv(decoder.Value())
    }

    /** begin_connect, for the nonce that was drawn. */
    constructor BeginConnect(nonce: bv64)
      ensures Value() == Begin(nonce) && Valid() && fresh(decoder)
    {
      this.nonce := nonce;
      nextRequest := 1;
      decoder := new Decoder();
      info := Json.Null;
      valid := false;
    }

    method AcceptHello(info: Json.Value) returns (ok: bool)
      modifies this
      ensures ok == SpeaksProtocolOne(info)
      ensures Value() == if ok then old(Value()).(info := info, valid := true) else old(Value())
    {
      ok := SpeaksProtocolOne(info);
      if ok {
        this.info := info;
        valid := true;
      }
    }

    method PrepareRequest(c: Json.Command, inRange: seq<bv8> -> bool) returns (r: Prepared)
      modifies this
      ensures (Value(), r) == PreparedRequest(old(Value()), c, inRange)
    {
      if !valid {
        return Rejected(SessionLost);
      }
      var payload := Json.Payload(c, inRange);
      if payload.None? {
        return Rejected(InvalidCommand);
      }
      var id := nextRequest;
      if id == LAST_REQUEST {
        return Rejected(RequestIdsExhausted);
      }
      nextRequest := Successor(id);
      return Ready(Frame(REQUEST, nonce, id, payload.value));
    }

    method PrepareConsole(data: seq<bv8>) returns (r: ConsoleFrames)
      ensures r == PreparedConsole(Value(), data)
    {
      if !valid {
        return NoFrames(SessionLost);
      }
      hide Chunks;
      var chunks := Chunks(data);
      r := EncodeConsole(nonce, chunks);
    }

    method Process(bytes: seq<bv8>, expected: Option<Expected>, parse: seq<bv8> -> Option<Json.Value>)
      returns (r: Processed)
      requires Valid()
      modifies this, decoder
      ensures Valid()
      ensures (Value(), r) == ProcessBytes(old(Value()), bytes, expected, parse)
    {
      hide Run;
      hide Items;
      hide Inv;
      var items := decoder.Feed(bytes);
      var outputs: seq<Output> := [];
      var reply: Option<Reply> := None;
      var reset := false;
      for i := 0 to |items|
        invariant Progress(outputs, reply, reset, false) == Handle(items[..i], nonce, valid, expected, parse)
      {
        assert items[..i + 1][..i] == items[..i];
        match items[i] {
          case Raw(data) =>
            reset := reset || valid;
            outputs := outputs + [Console(data)];
          case Corrupt =>
            outputs := outputs + [CorruptFrame];
          case FrameItem(f) =>
            if f.session == nonce {
              if Matches(f, expected) {
                var value := parse(f.payload);
                if value.None? {
                  FailureLasts(items, i + 1, nonce, valid, expected, parse);
                  return Processed(outputs, None, Some(InvalidResponse));
                }
                reply := Some(if f.kind == ERROR then Refusal(value.value) else Answer(value.value));
              } else if f.kind == CONSOLE {
                outputs := outputs + [Console(f.payload)];
              } else if f.kind == EVENT {
                var value := parse(f.payload);
                outputs := outputs + [if value.Some? then Event(value.value) else CorruptFrame];
              }
            }
        }
      }
      assert items[..|items|] == items;
      if reset {
        valid := false;
        return Processed(outputs, None, Some(Unframed));
      }
      return Processed(outputs, reply, None);
    }
  }

  /** Once a response was malformed, nothing after it is looked at. */
  lemma {:induction false} FailureLasts(items: seq<Decoded>, n: nat, nonce: bv64, valid: bool,
                                        expected: Option<Expected>, parse: seq<bv8> -> Option<Json.Value>)
    requires n <= |items| && Handle(items[..n], nonce, valid, expected, parse).failed
    ensures Handle(items, nonce, valid, expected, parse) == Handle(items[..n], nonce, valid, expected, parse)
    decreases |items|
  {
    if n == |items| {
      assert items[..n] == items;
    } else {
      assert items[..|items| - 1][..n] == items[..n];
      FailureLasts(items[..|items| - 1], n, nonce, valid, expected, parse);
    }
  }
}
