/**
 What a session of src/application.rs makes of the bytes it reads: which outputs, in which order, which reply and which
 error, in terms of the items its decoder reports; and that console text comes through however it was cut into reads.
 */
module Outputs {
  import opened Mux
  import opened MuxDecoder
  import opened MuxStream
  import opened Application
  import P = Protocol
  import Json

  // ---------- items ----------

  /** The answer a pending call waits for, good or bad. */
  predicate Awaits(expected: Option<Expected>, f: Frame) {
    && expected.Some? && f.request == expected.value.request
    && (f.kind == expected.value.kind || f.kind == ERROR)
  }

  predicate IsAwaited(item: Decoded, nonce: bv64, expected: Option<Expected>) {
    item.FrameItem? && item.frame.session == nonce && Awaits(expected, item.frame)
  }

  /** Items that are reported to the user: all but answers, frames of other sessions and of other kinds. */
  predicate IsShown(item: Decoded, nonce: bv64, expected: Option<Expected>) {
    match item
    case Raw(_) => true
    case Corrupt => true
    case FrameItem(f) => f.session == nonce && !Awaits(expected, f) && (f.kind == CONSOLE || f.kind == EVENT)
  }

  function ShownItems(items: seq<Decoded>, nonce: bv64, expected: Option<Expected>): seq<Decoded> {
    if items == [] then []
    else
      var n := |items| - 1;
      ShownItems(items[..n], nonce, expected) + if IsShown(items[n], nonce, expected) then [items[n]] else []
  }

  /** How one of them is reported. */
  predicate Shows(item: Decoded, output: Output, parse: seq<bv8> -> Option<Json.Value>) {
    match item
    case Raw(data) => output == Console(data)
    case Corrupt => output == CorruptFrame
    case FrameItem(f) =>
      if f.kind == CONSOLE then output == Console(f.payload)
      else match parse(f.payload)
           case Some(v) => output == Event(v)
           case None => output == CorruptFrame
  }

  predicate ShowsEach(items: seq<Decoded>, outputs: seq<Output>, parse: seq<bv8> -> Option<Json.Value>) {
    |outputs| == |items| && forall i :: 0 <= i < |items| ==> Shows(items[i], outputs[i], parse)
  }

  /** An awaited answer that is no JSON. */
  predicate IsMalformed(item: Decoded, nonce: bv64, expected: Option<Expected>, parse: seq<bv8> -> Option<Json.Value>) {
    IsAwaited(item, nonce, expected) && parse(item.frame.payload).None?
  }

  predicate Malformed(items: seq<Decoded>, nonce: bv64, expected: Option<Expected>,
                      parse: seq<bv8> -> Option<Json.Value>)
  {
    exists i :: 0 <= i < |items| && IsMalformed(items[i], nonce, expected, parse)
  }

  predicate HasRaw(items: seq<Decoded>) {
    exists i :: 0 <= i < |items| && items[i].Raw?
  }

  function LastAwaited(items: seq<Decoded>, nonce: bv64, expected: Option<Expected>): (r: Option<Frame>)
    ensures r.None? <==> forall i :: 0 <= i < |items| ==> !IsAwaited(items[i], nonce, expected)
    ensures r.Some? ==> exists i :: 0 <= i < |items| && items[i] == FrameItem(r.value)
                          && IsAwaited(items[i], nonce, expected)
                          && forall j :: i < j < |items| ==> !IsAwaited(items[j], nonce, expected)
  {
    if items == [] then None
    else
      var n := |items| - 1;
      if IsAwaited(items[n], nonce, expected) then Some(items[n].frame) else LastAwaited(items[..n], nonce, expected)
  }

  function ReplyOf(f: Frame, parse: seq<bv8> -> Option<Json.Value>): Option<Reply> {
    match parse(f.payload)
    case None => None
    case Some(v) => Some(if f.kind == ERROR then Refusal(v) else Answer(v))
  }

  // ---------- what handling them amounts to ----------

  lemma MalformedPush(items: seq<Decoded>, nonce: bv64, expected: Option<Expected>,
                      parse: seq<bv8> -> Option<Json.Value>)
    requires items != []
    ensures var n := |items| - 1;
            Malformed(items, nonce, expected, parse)
            <==> Malformed(items[..n], nonce, expected, parse) || IsMalformed(items[n], nonce, expected, parse)
  {
    hide IsMalformed;
    var n := |items| - 1;
    if i :| 0 <= i < n && IsMalformed(items[..n][i], nonce, expected, parse) {
      assert items[i] == items[..n][i];
    }
    if i :| 0 <= i < |items| && IsMalformed(items[i], nonce, expected, parse) {
      assert i < n ==> items[..n][i] == items[i];
    }
  }

  lemma RawPush(items: seq<Decoded>)
    requires items != []
    ensures HasRaw(items) <==> HasRaw(items[..|items| - 1]) || items[|items| - 1].Raw?
  {
    var n := |items| - 1;
    if i :| 0 <= i < n && items[..n][i].Raw? {
      assert items[i].Raw?;
    }
    if i :| 0 <= i < |items| && items[i].Raw? {
      assert i < n ==> items[..n][i] == items[i];
    }
  }

  /** The state after items none of which is a malformed answer. */
  predicate Handled(items: seq<Decoded>, p: Progress, nonce: bv64, valid: bool, expected: Option<Expected>,
                    parse: seq<bv8> -> Option<Json.Value>)
  {
    && !p.failed
    && ShowsEach(ShownItems(items, nonce, expected), p.outputs, parse)
    && p.reset == (valid && HasRaw(items))
    && p.reply == match LastAwaited(items, nonce, expected) case None => None case Some(f) => ReplyOf(f, parse)
  }

  lemma OneItem(items: seq<Decoded>, p: Progress, nonce: bv64, valid: bool, expected: Option<Expected>,
                parse: seq<bv8> -> Option<Json.Value>)
    requires items != [] && Handled(items[..|items| - 1], p, nonce, valid, expected, parse)
    requires !IsMalformed(items[|items| - 1], nonce, expected, parse)
    ensures Handled(items, HandleItem(p, items[|items| - 1], nonce, valid, expected, parse), nonce, valid, expected,
                    parse)
  {
    hide HasRaw;
    RawPush(items);
  }

  lemma {:induction false} HandleMeans(items: seq<Decoded>, nonce: bv64, valid: bool, expected: Option<Expected>,
                                       parse: seq<bv8> -> Option<Json.Value>)
    ensures var p := Handle(items, nonce, valid, expected, parse);
            && (p.failed <==> Malformed(items, nonce, expected, parse))
            && (!p.failed ==> Handled(items, p, nonce, valid, expected, parse))
  {
    hide Handled;
    hide Malformed;
    hide IsMalformed;
    if items == [] {
      NothingHandled(nonce, valid, expected, parse);
    } else {
      var n := |items| - 1;
      HandleMeans(items[..n], nonce, valid, expected, parse);
      MalformedPush(items, nonce, expected, parse);
      var p := Handle(items[..n], nonce, valid, expected, parse);
      if !p.failed {
        if IsMalformed(items[n], nonce, expected, parse) {
          MalformedFails(p, items[n], nonce, valid, expected, parse);
        } else {
          OneItem(items, p, nonce, valid, expected, parse);
          HandledSucceeds(items, HandleItem(p, items[n], nonce, valid, expected, parse), nonce, valid, expected, parse);
        }
      }
    }
    hide HandleItem;
  }

  lemma NothingHandled(nonce: bv64, valid: bool, expected: Option<Expected>, parse: seq<bv8> -> Option<Json.Value>)
    ensures Handled([], Handle([], nonce, valid, expected, parse), nonce, valid, expected, parse)
    ensures !Malformed([], nonce, expected, parse) && !Handle([], nonce, valid, expected, parse).failed
  {
  }

  lemma MalformedFails(p: Progress, item: Decoded, nonce: bv64, valid: bool, expected: Option<Expected>,
                       parse: seq<bv8> -> Option<Json.Value>)
    requires !p.failed && IsMalformed(item, nonce, expected, parse)
    ensures HandleItem(p, item, nonce, valid, expected, parse) == p.(failed := true)
  {
  }

  lemma HandledSucceeds(items: seq<Decoded>, p: Progress, nonce: bv64, valid: bool, expected: Option<Expected>,
                        parse: seq<bv8> -> Option<Json.Value>)
    requires Handled(items, p, nonce, valid, expected, parse)
    ensures !p.failed
  {
  }

  /** The items before the first malformed answer. */
  lemma {:induction false} HandleStops(items: seq<Decoded>, nonce: bv64, valid: bool, expected: Option<Expected>,
                                       parse: seq<bv8> -> Option<Json.Value>) returns (i: nat)
    requires Malformed(items, nonce, expected, parse)
    ensures i < |items| && IsMalformed(items[i], nonce, expected, parse)
    ensures !Malformed(items[..i], nonce, expected, parse)
    ensures ShowsEach(ShownItems(items[..i], nonce, expected),
                      Handle(items, nonce, valid, expected, parse).outputs, parse)
  {
    hide IsMalformed;
    hide Malformed;
    hide ShowsEach;
    hide HandleItem;
    var n := |items| - 1;
    SomeItem(items, nonce, expected, parse);
    MalformedPush(items, nonce, expected, parse);
    HandleMeans(items[..n], nonce, valid, expected, parse);
    if Malformed(items[..n], nonce, expected, parse) {
      i := HandleStops(items[..n], nonce, valid, expected, parse);
      assert items[..n][..i] == items[..i];
      FailedStays(Handle(items[..n], nonce, valid, expected, parse), items[n], nonce, valid, expected, parse);
    } else {
      i := n;
      MalformedFails(Handle(items[..n], nonce, valid, expected, parse), items[n], nonce, valid, expected, parse);
    }
  }

  lemma SomeItem(items: seq<Decoded>, nonce: bv64, expected: Option<Expected>, parse: seq<bv8> -> Option<Json.Value>)
    requires Malformed(items, nonce, expected, parse)
    ensures items != []
  {
  }

  lemma FailedStays(p: Progress, item: Decoded, nonce: bv64, valid: bool, expected: Option<Expected>,
                    parse: seq<bv8> -> Option<Json.Value>)
    requires p.failed
    ensures HandleItem(p, item, nonce, valid, expected, parse) == p
  {
  }

  /**
   What a session reports of the items it reads. Without a malformed answer: one output for each item that is shown, in
   order; the end of a valid session exactly if there were unframed bytes; and otherwise the reply in the last awaited
   frame, if there is one. A malformed answer fails the read at once, and what came before it is still reported.
   */
  lemma ProcessMeans(s: SessionState, items: seq<Decoded>, expected: Option<Expected>,
                     parse: seq<bv8> -> Option<Json.Value>) returns (stop: nat)
    ensures var (s', r) := ProcessItems(s, items, expected, parse);
            && (r.error == Some(InvalidResponse) <==> Malformed(items, s.nonce, expected, parse))
            && (r.error == Some(Unframed) <==>
                  !Malformed(items, s.nonce, expected, parse) && s.valid && HasRaw(items))
            && (r.error.None? ==>
                  r.reply == match LastAwaited(items, s.nonce, expected)
                             case None => None
                             case Some(f) => ReplyOf(f, parse))
            && (r.error.Some? ==> r.reply.None? && (r.error.value == InvalidResponse || r.error.value == Unframed))
            && s' == s.(valid := s.valid && r.error != Some(Unframed))
            && (if r.error == Some(InvalidResponse) then
                  && stop < |items| && IsMalformed(items[stop], s.nonce, expected, parse)
                  && !Malformed(items[..stop], s.nonce, expected, parse)
                  && ShowsEach(ShownItems(items[..stop], s.nonce, expected), r.outputs, parse)
                else ShowsEach(ShownItems(items, s.nonce, expected), r.outputs, parse))
  {
    hide Malformed;
    hide IsMalformed;
    hide HasRaw;
    hide ShowsEach;
    HandleMeans(items, s.nonce, s.valid, expected, parse);
    if Malformed(items, s.nonce, expected, parse) {
      stop := HandleStops(items, s.nonce, s.valid, expected, parse);
    } else {
      stop := 0;
    }
    hide Handle;
  }

  /** The answer a read brings: an awaited frame that is JSON gives a reply, unless the read fails. */
  lemma AwaitedFrameIsReply(s: SessionState, items: seq<Decoded>, expected: Option<Expected>,
                            parse: seq<bv8> -> Option<Json.Value>, f: Frame)
    requires FrameItem(f) in items && f.session == s.nonce && Awaits(expected, f)
    ensures var r := ProcessItems(s, items, expected, parse).1;
            r.error.None? ==> r.reply.Some?
  {
    hide Handle;
    hide ShowsEach;
    hide HasRaw;
    var stop := ProcessMeans(s, items, expected, parse);
    var i :| 0 <= i < |items| && items[i] == FrameItem(f);
    assert IsAwaited(items[i], s.nonce, expected);
    if !Malformed(items, s.nonce, expected, parse) {
      var g := LastAwaited(items, s.nonce, expected).value;
      var j :| 0 <= j < |items| && items[j] == FrameItem(g) && IsAwaited(items[j], s.nonce, expected);
      assert !IsMalformed(items[j], s.nonce, expected, parse);
    }
    hide ProcessItems;
  }

  // ---------- console text ----------

  function OutputText(output: Output): seq<bv8> {
    match output
    case Console(data) => data
    case _ => []
  }

  /** The console text among some outputs. */
  function ConsoleText(outputs: seq<Output>): seq<bv8> {
    if outputs == [] then [] else ConsoleText(outputs[..|outputs| - 1]) + OutputText(outputs[|outputs| - 1])
  }

  function SignalText(s: Signal, nonce: bv64): seq<bv8> {
    match s
    case RawByte(b) => [b]
    case Got(f) => if f.session == nonce && f.kind == CONSOLE then f.payload else []
    case Bad => []
  }

  /** The console text of a stream: its raw bytes, and the console frames of the session. */
  function TraceText(trace: seq<Signal>, nonce: bv64): seq<bv8> {
    if trace == [] then [] else TraceText(trace[..|trace| - 1], nonce) + SignalText(trace[|trace| - 1], nonce)
  }

  lemma {:induction false} TraceTextConcat(a: seq<Signal>, b: seq<Signal>, nonce: bv64)
    ensures TraceText(a + b, nonce) == TraceText(a, nonce) + TraceText(b, nonce)
  {
    hide SignalText;
    if b == [] {
      assert a + b == a;
    } else {
      var n := |b| - 1;
      assert (a + b)[..|a + b| - 1] == a + b[..n];
      TraceTextConcat(a, b[..n], nonce);
    }
  }

  lemma {:induction false} ConsoleTextConcat(a: seq<Output>, b: seq<Output>)
    ensures ConsoleText(a + b) == ConsoleText(a) + ConsoleText(b)
  {
    hide OutputText;
    if b == [] {
      assert a + b == a;
    } else {
      var n := |b| - 1;
      assert (a + b)[..|a + b| - 1] == a + b[..n];
      ConsoleTextConcat(a, b[..n]);
    }
  }

  lemma {:induction false} RawText(data: seq<bv8>, nonce: bv64)
    ensures TraceText(RawSignals(data), nonce) == data
  {
    if data != [] {
      var n := |data| - 1;
      RawText(data[..n], nonce);
      assert RawSignals(data)[..n] == RawSignals(data[..n]);
    }
  }

  /** No call waits for console output. */
  predicate AwaitsNoConsole(expected: Option<Expected>) {
    expected.Some? ==> expected.value.kind != CONSOLE
  }

  lemma ItemText(item: Decoded, nonce: bv64, expected: Option<Expected>, parse: seq<bv8> -> Option<Json.Value>,
                 outputs: seq<Output>)
    requires AwaitsNoConsole(expected)
    requires ShowsEach(if IsShown(item, nonce, expected) then [item] else [], outputs, parse)
    ensures ConsoleText(outputs) == TraceText(UngroupOne(item), nonce)
  {
    match item {
      case Raw(data) => RawText(data, nonce);
      case FrameItem(f) => assert [Got(f)][..0] == [];
      case Corrupt => assert [Bad][..0] == [];
    }
    assert outputs != [] ==> outputs[..0] == [];
  }

  /** The console text that is shown is that of the signals. */
  lemma {:induction false} ShownText(items: seq<Decoded>, nonce: bv64, expected: Option<Expected>,
                                     parse: seq<bv8> -> Option<Json.Value>, outputs: seq<Output>)
    requires AwaitsNoConsole(expected) && ShowsEach(ShownItems(items, nonce, expected), outputs, parse)
    ensures ConsoleText(outputs) == TraceText(Ungroup(items), nonce)
  {
    hide Shows;
    hide IsShown;
    hide UngroupOne;
    if items != [] {
      var n := |items| - 1;
      var before := ShownItems(items[..n], nonce, expected);
      var k := |before|;
      assert outputs == outputs[..k] + outputs[k..];
      ShownText(items[..n], nonce, expected, parse, outputs[..k]);
      ItemText(items[n], nonce, expected, parse, outputs[k..]);
      ConsoleTextConcat(outputs[..k], outputs[k..]);
      TraceTextConcat(Ungroup(items[..n]), UngroupOne(items[n]), nonce);
    }
  }

  // ---------- reads ----------

  datatype Chunk = Chunk(bytes: seq<bv8>, expected: Option<Expected>)

  function Joined(chunks: seq<Chunk>): seq<bv8> {
    if chunks == [] then [] else Joined(chunks[..|chunks| - 1]) + chunks[|chunks| - 1].bytes
  }

  /** A session after some reads, and all it has reported. */
  function AfterReads(s: SessionState, chunks: seq<Chunk>, parse: seq<bv8> -> Option<Json.Value>)
    : (SessionState, seq<Output>)
  {
    if chunks == [] then (s, [])
    else
      var (before, outputs) := AfterReads(s, chunks[..|chunks| - 1], parse);
      var (after, r) := ProcessBytes(before, chunks[|chunks| - 1].bytes, chunks[|chunks| - 1].expected, parse);
      (after, outputs + r.outputs)
  }

  /** No read fails because of a malformed answer. */
  predicate WellAnswered(s: SessionState, chunks: seq<Chunk>, parse: seq<bv8> -> Option<Json.Value>) {
    chunks == [] ||
    var n := |chunks| - 1;
    && WellAnswered(s, chunks[..n], parse)
    && AwaitsNoConsole(chunks[n].expected)
    && ProcessBytes(AfterReads(s, chunks[..n], parse).0, chunks[n].bytes, chunks[n].expected, parse).1.error
       != Some(InvalidResponse)
  }

  /** One read shows the console text of its bytes. */
  lemma ReadText1(s: SessionState, bytes: seq<bv8>, expected: Option<Expected>, parse: seq<bv8> -> Option<Json.Value>)
    requires AwaitsNoConsole(expected) && ProcessBytes(s, bytes, expected, parse).1.error != Some(InvalidResponse)
    ensures var (s', r) := ProcessBytes(s, bytes, expected, parse);
            && ConsoleText(r.outputs) == TraceText(Trace(s.decoder, bytes), s.nonce)
            && s'.nonce == s.nonce && s'.decoder == Run(s.decoder, bytes)
  {
    hide Run;
    hide Trace;
    hide Items;
    hide ShowsEach;
    hide Malformed;
    hide HasRaw;
    hide AwaitsNoConsole;
    hide ProcessItems;
    var items, at := Items(s.decoder, bytes), s.(decoder := Run(s.decoder, bytes));
    var stop := ProcessMeans(at, items, expected, parse);
    ItemsLossless(s.decoder, bytes);
    ShownText(items, s.nonce, expected, parse, ProcessItems(at, items, expected, parse).1.outputs);
  }

  /** However a stream was cut into reads, the console text that is shown is that of the stream. */
  lemma {:induction false} ReadsShowText(s: SessionState, chunks: seq<Chunk>, parse: seq<bv8> -> Option<Json.Value>)
    requires WellAnswered(s, chunks, parse)
    ensures var (s', outputs) := AfterReads(s, chunks, parse);
            && ConsoleText(outputs) == TraceText(Trace(s.decoder, Joined(chunks)), s.nonce)
            && s'.nonce == s.nonce && s'.decoder == Run(s.decoder, Joined(chunks))
  {
    hide ProcessBytes;
    hide AwaitsNoConsole;
    hide Run;
    hide Trace;
    RunEmpty(s.decoder);
    if chunks != [] {
      var n := |chunks| - 1;
      var (before, outputs) := AfterReads(s, chunks[..n], parse);
      ReadsShowText(s, chunks[..n], parse);
      ReadText1(before, chunks[n].bytes, chunks[n].expected, parse);
      ConsoleTextConcat(outputs, ProcessBytes(before, chunks[n].bytes, chunks[n].expected, parse).1.outputs);
      RunConcat(s.decoder, Joined(chunks[..n]), chunks[n].bytes);
      TraceTextConcat(Trace(s.decoder, Joined(chunks[..n])), Trace(before.decoder, chunks[n].bytes), s.nonce);
    }
  }

  // ---------- what a device prints ----------

  function Pieces(texts: seq<seq<bv8>>): seq<bv8> {
    if texts == [] then [] else Pieces(texts[..|texts| - 1]) + texts[|texts| - 1]
  }

  /** What a device writes when it prints some texts. */
  function Printed(d: P.Device, texts: seq<seq<bv8>>): seq<bv8> {
    if texts == [] then [] else Printed(d, texts[..|texts| - 1]) + P.ConsoleBytes(d, texts[|texts| - 1])
  }

  lemma PrintedPiece(d: P.Device, text: seq<bv8>, state: State)
    requires d.session != 0 && |text| <= MAX_PAYLOAD && Inv(state)
    ensures Run(state, P.ConsoleBytes(d, text)) == READY
    ensures Trace(state, P.ConsoleBytes(d, text)) == AtFlag(state) + [Got(ConsoleFrame(d.session, text))]
  {
    hide Wire;
    hide AtFlag;
    hide Inv;
    hide Run;
    hide Trace;
    assert Encodable(ConsoleFrame(d.session, text));
    SelfSynchronisation(state, ConsoleFrame(d.session, text));
  }

  lemma {:induction false} PrintedText(d: P.Device, texts: seq<seq<bv8>>, state: State)
    requires d.session != 0 && (forall i :: 0 <= i < |texts| ==> |texts[i]| <= MAX_PAYLOAD)
    requires Inv(state) && AtFlag(state) == []
    ensures TraceText(Trace(state, Printed(d, texts)), d.session) == Pieces(texts)
    ensures Run(state, Printed(d, texts)) == if texts == [] then state else READY
  {
    hide P.ConsoleBytes;
    hide Run;
    hide Trace;
    hide AtFlag;
    hide Inv;
    RunEmpty(state);
    if texts != [] {
      var n := |texts| - 1;
      var before := Printed(d, texts[..n]);
      PrintedText(d, texts[..n], state);
      ReadyIsClean();
      PrintedPiece(d, texts[n], Run(state, before));
      RunConcat(state, before, P.ConsoleBytes(d, texts[n]));
      var f := ConsoleFrame(d.session, texts[n]);
      TraceTextConcat(Trace(state, before), [Got(f)], d.session);
      OneFrameText(f, d.session);
      assert [] + [Got(f)] == [Got(f)];
    }
  }

  lemma OneFrameText(f: Frame, nonce: bv64)
    requires f.session == nonce && f.kind == CONSOLE
    ensures TraceText([Got(f)], nonce) == f.payload
  {
    assert [Got(f)][..0] == [];
  }

  /**
   What a device prints in the host's session is shown as it was printed, whatever the host waits for meanwhile and
   however the bytes are cut into reads.
   */
  lemma PrintedIsShown(s: SessionState, d: P.Device, texts: seq<seq<bv8>>, chunks: seq<Chunk>,
                       parse: seq<bv8> -> Option<Json.Value>)
    requires d.session == s.nonce != 0 && forall i :: 0 <= i < |texts| ==> |texts[i]| <= MAX_PAYLOAD
    requires Inv(s.decoder) && AtFlag(s.decoder) == []
    requires Joined(chunks) == Printed(d, texts) && WellAnswered(s, chunks, parse)
    ensures ConsoleText(AfterReads(s, chunks, parse).1) == Pieces(texts)
  {
    hide AfterReads;
    hide WellAnswered;
    hide Trace;
    hide Run;
    hide AtFlag;
    hide Inv;
    ReadsShowText(s, chunks, parse);
    PrintedText(d, texts, s.decoder);
  }

  /** A new session shows text that is no frame as it is, too. */
  lemma NewSessionShowsText(nonce: bv64, text: seq<bv8>, chunks: seq<Chunk>, parse: seq<bv8> -> Option<Json.Value>)
    requires FLAG !in text && Joined(chunks) == text && WellAnswered(Begin(nonce), chunks, parse)
    ensures ConsoleText(AfterReads(Begin(nonce), chunks, parse).1) == text
  {
    hide AfterReads;
    hide WellAnswered;
    ReadsShowText(Begin(nonce), chunks, parse);
    ReadText(FRESH, text);
    RawText(text, nonce);
  }
}
