/**
 Where the replies of src/duplex.rs come from: a call completes with what the device produced for it, unless console
 text that the device prints without a session imitates the answer.
 */
module Replies {
  import opened Mux
  import MuxDecoder
  import opened Application
  import opened Duplex
  import opened DuplexRuns
  import opened SerialLine
  import opened Protocol
  import opened Witness
  import Json

  /** The completion a reply gave, as opposed to a deadline. */
  predicate FromReply(c: Completion) {
    c.result.Done? || (c.result.Failed? && (c.result.failure.Refused? || c.result.failure.UnsupportedProtocol?))
  }

  function ReplyValue(c: Completion): Option<Json.Value> {
    match c.result
    case Done(v) => Some(v)
    case Failed(Refused(v)) => Some(v)
    case _ => None
  }

  /** A frame that answers the pending call, whoever it is from. */
  predicate Awaited(host: DuplexState, f: Frame) {
    && host.session.Some? && host.pending.Some?
    && f.session == host.session.value.nonce && f.request == host.pending.value.request
    && (f.kind == host.pending.value.kind || f.kind == ERROR)
  }

  /** A frame that console text was printed into, and that is no frame of the device's, whole or cut. */
  predicate OnlyPrinted(w: World, f: Frame) {
    f in w.printed && !FromDevice(f, w.produced)
  }

  /** The device produced the frame, or one it is a beginning of, for this very call. */
  predicate AnsweredBy(w: World, key: string, c: Completion, f: Frame, env: Env) {
    && Awaited(w.host, f)
    && var p := w.host.pending.value;
    && c.key == p.key == key
    && (exists g :: g in w.produced && CutOf(f, g))
    && env.parse(f.payload).Some?
    && (ReplyValue(c).Some? ==> env.parse(f.payload) == ReplyValue(c))
    && (p.kind == HELLO_ACK ==> f.kind == HELLO_ACK)
    && (p.kind == RESPONSE ==>
          && IdOf(f) in w.submitted && w.submitted[IdOf(f)].key == key
          && (c.result.Done? ==> f.kind == RESPONSE)
          && (c.result.Failed? ==> f.kind == ERROR)
          && (f.kind == RESPONSE ==> exists g :: g in w.handled && IdOf(g) == IdOf(f)
                                       && g.payload == w.submitted[IdOf(f)].payload))
  }

  lemma SettledCompletion(s: DuplexState, items: seq<MuxDecoder.Decoded>, before: nat, after: nat,
                          parse: seq<bv8> -> Option<Json.Value>, c: Completion)
    returns (reply: Reply)
    requires s.session.Some?
    requires var r := FeedItemsStep(s, items, before, after, parse).1; r.Fed? && c in r.completions && FromReply(c)
    ensures s.pending.Some? && c.key == s.pending.value.key && before < s.pending.value.deadline
    ensures var p := ProcessItems(s.session.value, items, ExpectedReply(s, before), parse).1;
            p.reply == Some(reply)
    ensures match reply
            case Answer(v) =>
              c.result == Done(v) || (s.pending.value.kind == HELLO_ACK && c.result == Failed(UnsupportedProtocol))
            case Refusal(v) => c.result == Failed(Refused(v))
  {
    hide SpeaksProtocolOne;
    var f := Source(s, items, before, parse);
    hide ProcessItems;
    reply := ProcessItems(s.session.value, items, ExpectedReply(s, before), parse).1.reply.value;
  }

  lemma Source(s: DuplexState, items: seq<MuxDecoder.Decoded>, before: nat, parse: seq<bv8> -> Option<Json.Value>)
    returns (f: Frame)
    requires s.session.Some?
    ensures ProcessItems(s.session.value, items, ExpectedReply(s, before), parse).1.reply.Some? ==>
              && Awaited(s, f) && MuxDecoder.FrameItem(f) in items && before < s.pending.value.deadline
              && RepliesWith(f, s.session.value.nonce, ExpectedReply(s, before).value,
                             ProcessItems(s.session.value, items, ExpectedReply(s, before), parse).1.reply.value, parse)
  {
    hide ProcessItems;
    if ProcessItems(s.session.value, items, ExpectedReply(s, before), parse).1.reply.Some? {
      f := ReplyHasSource(s.session.value, items, ExpectedReply(s, before), parse);
    } else {
      f := HelloFrame(0);
    }
  }

  lemma SourceIsProduced(w: World, f: Frame) returns (g: Frame)
    requires Inv(w) && f in w.sent && !OnlyPrinted(w, f) && f.kind != EVENT && f.kind != CONSOLE
    ensures g in w.produced && CutOf(f, g) && Justified(g, w.handled)
  {
    hide Justified;
    hide LineInv;
    hide RequestsInv;
    hide FreshInv;
    hide PendingInv;
    hide CutOf;
    g :| g in w.produced && CutOf(f, g);
  }

  lemma PendingFacts(w: World)
    requires Inv(w) && w.host.pending.Some?
    ensures var p := w.host.pending.value;
            && (p.kind == RESPONSE || p.kind == HELLO_ACK)
            && (p.kind == HELLO_ACK ==> p.request == 0)
            && (p.kind == RESPONSE ==>
                  && w.host.session.Some?
                  && Id(w.host.session.value.nonce, p.request) in w.submitted
                  && w.submitted[Id(w.host.session.value.nonce, p.request)].key == p.key)
    ensures forall id :: id in w.submitted ==> id.request != 0
  {
    hide LineInv;
    hide RequestsInv;
    hide DeviceInv;
    hide DownInv;
    hide Below;
  }

  lemma HandledPayload(w: World, g: Frame)
    requires Inv(w) && Justified(g, w.handled) && g.kind == RESPONSE
    ensures exists h :: h in w.handled && IdOf(h) == IdOf(g)
              && IdOf(g) in w.submitted && h.payload == w.submitted[IdOf(g)].payload
  {
    hide Distinct;
    hide Places;
    hide LineInv;
    hide FreshInv;
    hide PendingInv;
    hide DeviceInv;
    hide DownInv;
    hide Json.Scan;
    var h :| h in w.handled && IdOf(h) == IdOf(g);
    assert Exact(h, w.submitted) && Live(h);
  }

  lemma ReplyKind(w: World, g: Frame, p: Pending)
    requires Justified(g, w.handled) && g.request == p.request
    requires p.kind == HELLO_ACK ==> p.request == 0
    requires g.kind == p.kind || g.kind == ERROR
    ensures p.kind == HELLO_ACK ==> g.kind == HELLO_ACK
  {
  }

  /** A reply whose frame was not only printed is from the device. */
  lemma DeviceAnswers(w: World, env: Env, items: seq<MuxDecoder.Decoded>, before: nat, after: nat, c: Completion)
    returns (f: Frame)
    requires Inv(w) && CanHappen(w, HostReceives(items, before, after))
    requires var r := FeedItemsStep(w.host, items, before, after, env.parse).1;
             r.Fed? && c in r.completions && FromReply(c)
    ensures MuxDecoder.FrameItem(f) in items && Awaited(w.host, f) && env.parse(f.payload).Some?
    ensures before < w.host.pending.value.deadline
    ensures AnsweredBy(w, c.key, c, f, env) <==> !OnlyPrinted(w, f)
  {
    hide Inv;
    hide FeedItemsStep;
    hide ProcessItems;
    hide Justified;
    hide CutOf;
    var reply := SettledCompletion(w.host, items, before, after, env.parse, c);
    f := Source(w.host, items, before, env.parse);
    PendingFacts(w);
    if !OnlyPrinted(w, f) {
      var g := SourceIsProduced(w, f);
      SameFrame(f, g);
      ReplyKind(w, g, w.host.pending.value);
      if f.kind == RESPONSE {
        HandledPayload(w, g);
      }
    }
  }

  lemma SameFrame(f: Frame, g: Frame)
    requires CutOf(f, g)
    ensures f.kind == g.kind && IdOf(f) == IdOf(g)
  {
  }

  /**
   In every run, a call completes with a value, or with the device's refusal, only from a frame the device produced
   for that very session and request, or from a beginning of it that a stalled driver left; and a request only after
   the handler was called with it. The one exception is an awaited frame that was printed.
   */
  lemma ReplyComesFromDevice(steps: seq<Step>, env: Env, items: seq<MuxDecoder.Decoded>, before: nat, after: nat,
                             c: Completion)
    returns (f: Frame)
    requires Possible(steps, env) && CanHappen(WorldAfter(steps, env), HostReceives(items, before, after))
    requires var r := FeedItemsStep(WorldAfter(steps, env).host, items, before, after, env.parse).1;
             r.Fed? && c in r.completions && FromReply(c)
    requires forall g :: MuxDecoder.FrameItem(g) in items && Awaited(WorldAfter(steps, env).host, g) ==>
               !OnlyPrinted(WorldAfter(steps, env), g)
    ensures MuxDecoder.FrameItem(f) in items && AnsweredBy(WorldAfter(steps, env), c.key, c, f, env)
  {
    hide Inv;
    hide WorldAfter;
    hide FeedItemsStep;
    hide OnlyPrinted;
    hide AnsweredBy;
    RunKeeps(steps, env);
    f := DeviceAnswers(WorldAfter(steps, env), env, items, before, after, c);
  }

  // ---------- the exact condition ----------

  /** The host completes the call with an answer the device did not give. */
  ghost predicate Misled(w: World, step: Step, c: Completion, env: Env)
    requires CanHappen(w, step)
  {
    && step.HostReceives?
    && var r := FeedItemsStep(w.host, step.items, step.before, step.after, env.parse).1;
    && r.Fed? && c in r.completions && FromReply(c)
    && forall f :: MuxDecoder.FrameItem(f) in step.items ==> !AnsweredBy(w, c.key, c, f, env)
  }

  /** A printed frame that imitates the answer to a call whose deadline can still be ahead. */
  predicate Imitates(w: World, f: Frame, env: Env) {
    && OnlyPrinted(w, f) && Awaited(w.host, f) && env.parse(f.payload).Some?
    && w.host.pending.value.deadline > 0
  }

  lemma Misleads(w: World, f: Frame, env: Env) returns (step: Step, c: Completion)
    requires Inv(w) && Imitates(w, f, env)
    ensures CanHappen(w, step) && Misled(w, step, c, env)
  {
    hide AnsweredBy;
    var items := [MuxDecoder.FrameItem(f)];
    step := HostReceives(items, 0, 0);
    PrintedIsSent(w, f);
    c := OneReply(w.host, f, env.parse);
    var g := DeviceAnswers(w, env, items, 0, 0, c);
  }

  lemma PrintedIsSent(w: World, f: Frame)
    requires Inv(w) && f in w.printed
    ensures f in w.sent
  {
    hide LineInv;
    hide RequestsInv;
    hide FreshInv;
    hide PendingInv;
    hide DeviceInv;
    hide FromDevice;
  }

  lemma OneReply(s: DuplexState, f: Frame, parse: seq<bv8> -> Option<Json.Value>) returns (c: Completion)
    requires Awaited(s, f) && parse(f.payload).Some? && s.pending.value.deadline > 0
    ensures var r := FeedItemsStep(s, [MuxDecoder.FrameItem(f)], 0, 0, parse).1;
            r.Fed? && c in r.completions && FromReply(c)
  {
    hide SpeaksProtocolOne;
    var items := [MuxDecoder.FrameItem(f)];
    assert items[..0] == [];
    var reply := if f.kind == ERROR then Refusal(parse(f.payload).value) else Answer(parse(f.payload).value);
    assert Handle(items, s.session.value.nonce, s.session.value.valid, ExpectedReply(s, 0), parse)
        == Progress([], Some(reply), false, false);
    assert ProcessItems(s.session.value, items, ExpectedReply(s, 0), parse).1 == Processed([], Some(reply), None);
    c := FeedItemsStep(s, items, 0, 0, parse).1.completions[0];
  }

  /**
   At any point of any run: what the host has been sent can complete its call with an answer the device did not give
   if and only if printed text imitates that answer.
   */
  lemma OnlyPrintedRepliesMislead(steps: seq<Step>, env: Env)
    requires Possible(steps, env)
    ensures var w := WorldAfter(steps, env);
            (exists step, c :: CanHappen(w, step) && Misled(w, step, c, env)) <==> exists f :: Imitates(w, f, env)
  {
    hide Inv;
    hide WorldAfter;
    hide FeedItemsStep;
    hide AnsweredBy;
    hide OnlyPrinted;
    var w := WorldAfter(steps, env);
    RunKeeps(steps, env);
    if step, c :| CanHappen(w, step) && Misled(w, step, c, env) {
      var f := DeviceAnswers(w, env, step.items, step.before, step.after, c);
      assert Imitates(w, f, env);
    }
    if f :| Imitates(w, f, env) {
      var step, c := Misleads(w, f, env);
    }
  }

  // ---------- a run in which the host is misled ----------

  /** A device without a session prints the bytes of an answer. */
  lemma PrintsAnswer(w: World)
    requires w.device == BOOTED && w.down == Line(MuxDecoder.READY, false)
    ensures var step := DevicePrints(Wire(Answered()), |Wire(Answered())|);
            && CanHappen(w, step)
            && var w' := Next(w, step, ENV);
               && Answered() in w'.printed && w'.host == w.host
               && w'.produced == w.produced && w'.handled == w.handled
  {
    hide Wire;
    hide Arrived;
    hide Carry;
    hide TypedFrames;
    hide Json.Print;
    AnswerText();
    WholeArrives(w.down, Answered());
    assert Wire(Answered())[..|Wire(Answered())|] == Wire(Answered());
  }

  lemma AnswerText()
    ensures Encodable(Answered()) && ENV.parse(Answered().payload) == Some(RESULT)
  {
    hide Json.Escape;
    IdentityText();
  }

  /**
   A call completes with a result nobody computed: the device resets before it reads the request, and prints the
   bytes of the answer while it has no session.
   */
  lemma PrintedAnswerMisleads() returns (steps: seq<Step>, step: Step, c: Completion)
    ensures Possible(steps, ENV) && CanHappen(WorldAfter(steps, ENV), step)
    ensures Misled(WorldAfter(steps, ENV), step, c, ENV)
    ensures WorldAfter(steps, ENV).handled == []
  {
    hide Wire;
    hide WorldAfter;
    hide Possible;
    hide CanHappen;
    hide TypesNoCopy;
    hide Next;
    hide Inv;
    hide Json.Print;
    hide Misled;
    var w;
    steps, w := Asking();
    Resets(w);
    steps, w := Go(steps, w, DeviceResets);
    PrintsAnswer(w);
    steps, w := Go(steps, w, DevicePrints(Wire(Answered()), |Wire(Answered())|));
    RunKeeps(steps, ENV);
    AnswerText();
    NotFromDevice(w);
    step, c := Misleads(w, Answered(), ENV);
  }

  lemma Resets(w: World)
    ensures CanHappen(w, DeviceResets) && Next(w, DeviceResets, ENV) == w.(device := BOOTED)
  {
  }

  lemma NotFromDevice(w: World)
    requires w.produced == {Acknowledged()} && Answered() in w.printed
    ensures OnlyPrinted(w, Answered())
  {
    hide Json.Print;
  }
}
