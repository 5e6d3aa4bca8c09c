/**
 The bytes on their way from one side to the other, as the decoder there reads them: what it still holds when a
 write stops in the middle of a frame, and what bytes that are no frame can do, which are typed at the host or printed
 by the device.
 */
module SerialLine {
  import opened Crc32
  import opened Mux
  import opened MuxDecoder
  import opened MuxStream
  import Json

  /** The decoder behind the bytes written so far, and whether text was typed since the last flag. */
  datatype Line = Line(decoder: State, typed: bool)

  const SILENT := Line(FRESH, false)

  function GotFrames(signals: seq<Signal>): seq<Frame> {
    if signals == [] then []
    else
      var last := signals[|signals| - 1];
      GotFrames(signals[..|signals| - 1]) + if last.Got? then [last.frame] else []
  }

  function Read(l: Line, b: bv8, typing: bool): Line {
    Line(Next(l.decoder, b), b != FLAG && (l.typed || typing))
  }

  function Carry(l: Line, bytes: seq<bv8>, typing: bool): Line {
    if bytes == [] then l else Read(Carry(l, bytes[..|bytes| - 1], typing), bytes[|bytes| - 1], typing)
  }

  /** The frames some bytes complete. */
  function Arrived(l: Line, bytes: seq<bv8>): seq<Frame> {
    GotFrames(Trace(l.decoder, bytes))
  }

  /** The frame the next flag would complete. */
  function Ending(d: State): seq<Frame> {
    GotFrames(AtFlag(d))
  }

  /** Those of the frames that text was typed into. */
  function TypedFrames(l: Line, bytes: seq<bv8>, typing: bool): seq<Frame> {
    if bytes == [] then []
    else
      var n := |bytes| - 1;
      var before := Carry(l, bytes[..n], typing);
      TypedFrames(l, bytes[..n], typing) + if bytes[n] == FLAG && before.typed then Ending(before.decoder) else []
  }

  /** The frame still to come from bytes that were not typed. */
  function Left(l: Line): seq<Frame> {
    if l.typed then [] else Ending(l.decoder)
  }

  // ---------- requests ----------

  /** Names one application request over the whole life of the host. */
  datatype Id = Id(session: bv64, request: bv32)

  function IdOf(f: Frame): Id {
    Id(f.session, f.request)
  }

  /** A request the device can call the handler for. */
  predicate Live(f: Frame) {
    f.kind == REQUEST && f.request != 0 && f.payload != [] && Json.Scan(f.payload, false, 0)
  }

  function RequestId(f: Frame): multiset<Id> {
    if Live(f) then multiset{IdOf(f)} else multiset{}
  }

  function Ids(frames: seq<Frame>): multiset<Id> {
    if frames == [] then multiset{} else Ids(frames[..|frames| - 1]) + RequestId(frames[|frames| - 1])
  }

  lemma {:induction false} IdsConcat(a: seq<Frame>, b: seq<Frame>)
    ensures Ids(a + b) == Ids(a) + Ids(b)
  {
    hide RequestId;
    if b == [] {
      assert a + b == a;
    } else {
      var n := |b| - 1;
      assert (a + b)[..|a + b| - 1] == a + b[..n];
      IdsConcat(a, b[..n]);
    }
  }

  lemma IdsOne(f: Frame)
    ensures Ids([f]) == RequestId(f)
  {
    assert [f][..0] == [];
  }

  lemma {:induction false} NoRequests(frames: seq<Frame>)
    requires forall f :: f in frames ==> !Live(f)
    ensures Ids(frames) == multiset{}
  {
    hide Live;
    if frames != [] {
      NoRequests(frames[..|frames| - 1]);
    }
  }

  lemma {:induction false} IdsSource(frames: seq<Frame>, id: Id) returns (f: Frame)
    requires id in Ids(frames)
    ensures f in frames && Live(f) && IdOf(f) == id && f.kind == REQUEST
  {
    hide Json.Scan;
    var n := |frames| - 1;
    if id in Ids(frames[..n]) {
      f := IdsSource(frames[..n], id);
    } else {
      f := frames[n];
    }
  }

  // ---------- bytes one after the other ----------

  lemma {:induction false} GotFramesConcat(a: seq<Signal>, b: seq<Signal>)
    ensures GotFrames(a + b) == GotFrames(a) + GotFrames(b)
  {
    if b == [] {
      assert a + b == a;
    } else {
      var n := |b| - 1;
      assert (a + b)[..|a + b| - 1] == a + b[..n];
      GotFramesConcat(a, b[..n]);
    }
  }

  lemma {:induction false} CarryRuns(l: Line, bytes: seq<bv8>, typing: bool)
    ensures Carry(l, bytes, typing).decoder == Run(l.decoder, bytes)
  {
    hide Next;
    if bytes != [] {
      CarryRuns(l, bytes[..|bytes| - 1], typing);
    }
  }

  lemma {:induction false} CarryConcat(l: Line, a: seq<bv8>, b: seq<bv8>, typing: bool)
    ensures Carry(l, a + b, typing) == Carry(Carry(l, a, typing), b, typing)
    ensures TypedFrames(l, a + b, typing) == TypedFrames(l, a, typing) + TypedFrames(Carry(l, a, typing), b, typing)
  {
    hide Read;
    hide Ending;
    if b == [] {
      assert a + b == a;
    } else {
      var n := |b| - 1;
      assert (a + b)[..|a + b| - 1] == a + b[..n];
      CarryConcat(l, a, b[..n], typing);
    }
  }

  lemma CarryNothing(l: Line, typing: bool)
    ensures Carry(l, [], typing) == l && Arrived(l, []) == [] && TypedFrames(l, [], typing) == []
  {
  }

  /** Without typing nothing becomes typed. */
  lemma {:induction false} NothingTyped(l: Line, bytes: seq<bv8>)
    requires !l.typed
    ensures !Carry(l, bytes, false).typed && TypedFrames(l, bytes, false) == []
  {
    hide Next;
    if bytes != [] {
      NothingTyped(l, bytes[..|bytes| - 1]);
    }
  }

  lemma CarryFlag(l: Line, typing: bool)
    ensures Carry(l, [FLAG], typing) == Line(READY, false)
    ensures TypedFrames(l, [FLAG], typing) == if l.typed then Ending(l.decoder) else []
    ensures Arrived(l, [FLAG]) == Ending(l.decoder)
  {
    hide Ending;
    assert [FLAG][..0] == [];
    CarryNothing(l, typing);
    RunOne(l.decoder, FLAG);
    EndingOf(l.decoder);
    assert [] + Ending(l.decoder) == Ending(l.decoder);
  }

  lemma EndingOf(d: State)
    ensures Ending(d) == GotFrames(AtFlag(d))
  {
  }

  // ---------- frames ----------

  /** The bytes between n of a frame and n + m, for a decoder that has seen those before. */
  lemma FrameFromStart(l: Line, f: Frame, n: nat)
    requires Encodable(f) && 0 < n <= |Wire(f)|
    ensures Trace(l.decoder, Wire(f)[..n]) == AtFlag(l.decoder) + if n == |Wire(f)| then [Got(f)] else []
    ensures Run(l.decoder, Wire(f)[..n]) == Run(FRESH, Wire(f)[..n])
    ensures !Carry(l, Wire(f)[..n], false).typed
    ensures TypedFrames(l, Wire(f)[..n], false) == if l.typed then Ending(l.decoder) else []
  {
    hide Run;
    hide Trace;
    hide Stuff;
    hide Body;
    hide Carry;
    hide TypedFrames;
    var w := Wire(f);
    assert w[0] == FLAG;
    assert w[..n] == [FLAG] + w[1..n];
    RunConcat(l.decoder, [FLAG], w[1..n]);
    RunConcat(FRESH, [FLAG], w[1..n]);
    RunOne(l.decoder, FLAG);
    RunOne(FRESH, FLAG);
    CarryConcat(l, [FLAG], w[1..n], false);
    CarryFlag(l, false);
    NothingTyped(Line(READY, false), w[1..n]);
    var typed := TypedFrames(l, [FLAG], false);
    assert typed + [] == typed;
    assert [] + Trace(READY, w[1..n]) == Trace(READY, w[1..n]);
    if n == |w| {
      assert w[..n] == w;
      SelfSynchronisation(FRESH, f);
    } else {
      PartialFrame(FRESH, f, n);
    }
    assert AtFlag(FRESH) == [];
  }

  lemma FrameFromMiddle(l: Line, f: Frame, o: nat, n: nat)
    requires Encodable(f) && 0 < o < o + n <= |Wire(f)|
    requires l.decoder == Run(FRESH, Wire(f)[..o]) && !l.typed
    ensures Trace(l.decoder, Wire(f)[o..o + n]) == if o + n == |Wire(f)| then [Got(f)] else []
    ensures Run(l.decoder, Wire(f)[o..o + n]) == Run(FRESH, Wire(f)[..o + n])
    ensures !Carry(l, Wire(f)[o..o + n], false).typed && TypedFrames(l, Wire(f)[o..o + n], false) == []
  {
    hide Run;
    hide Trace;
    hide Wire;
    hide AtFlag;
    hide Carry;
    hide TypedFrames;
    hide Encodable;
    FreshFrame(f, o);
    FreshFrame(f, o + n);
    NothingTyped(l, Wire(f)[o..o + n]);
    MiddlePart(Wire(f), o, n);
  }

  lemma MiddlePart(w: seq<bv8>, o: nat, n: nat)
    requires o + n <= |w| && Trace(FRESH, w[..o]) == []
    ensures Trace(Run(FRESH, w[..o]), w[o..o + n]) == Trace(FRESH, w[..o + n])
    ensures Run(Run(FRESH, w[..o]), w[o..o + n]) == Run(FRESH, w[..o + n])
  {
    hide Run;
    hide Trace;
    assert w[..o + n] == w[..o] + w[o..o + n];
    RunConcat(FRESH, w[..o], w[o..o + n]);
    var rest := Trace(Run(FRESH, w[..o]), w[o..o + n]);
    assert [] + rest == rest;
  }

  lemma FreshFrame(f: Frame, n: nat)
    requires Encodable(f) && 0 < n <= |Wire(f)|
    ensures Trace(FRESH, Wire(f)[..n]) == if n == |Wire(f)| then [Got(f)] else []
  {
    hide Run;
    hide Trace;
    hide Wire;
    hide Encodable;
    hide Carry;
    hide TypedFrames;
    FrameFromStart(SILENT, f, n);
    assert AtFlag(FRESH) == [];
  }

  lemma GotFramesOne(f: Frame)
    ensures GotFrames([Got(f)]) == [f]
  {
    assert [Got(f)][..0] == [];
  }

  /** Writing on in a frame completes what was left before it, if it is the beginning, and the frame at its end. */
  lemma FrameArrives(l: Line, f: Frame, o: nat, n: nat)
    requires Encodable(f) && o < o + n <= |Wire(f)|
    requires o > 0 ==> l.decoder == Run(FRESH, Wire(f)[..o]) && !l.typed
    ensures var bytes := Wire(f)[o..o + n];
            && Arrived(l, bytes)
            == (if o == 0 then Ending(l.decoder) else []) + (if o + n == |Wire(f)| then [f] else [])
            && TypedFrames(l, bytes, false) == (if o == 0 && l.typed then Ending(l.decoder) else [])
            && Carry(l, bytes, false) == Line(Run(FRESH, Wire(f)[..o + n]), false)
  {
    hide Run;
    hide Trace;
    hide Wire;
    hide AtFlag;
    hide GotFrames;
    hide TypedFrames;
    hide Carry;
    GotFramesOne(f);
    GotFramesNothing();
    var bytes := Wire(f)[o..o + n];
    CarryRuns(l, bytes, false);
    GotFramesConcat(AtFlag(l.decoder), if o + n == |Wire(f)| then [Got(f)] else []);
    if o == 0 {
      assert bytes == Wire(f)[..n];
      FrameFromStart(l, f, n);
    } else {
      FrameFromMiddle(l, f, o, n);
    }
  }

  lemma GotFramesNothing()
    ensures GotFrames([]) == []
  {
  }

  lemma FrameEndsClean(f: Frame)
    requires Encodable(f)
    ensures Run(FRESH, Wire(f)[..|Wire(f)|]) == READY && Ending(READY) == []
  {
    hide Wire;
    assert Wire(f)[..|Wire(f)|] == Wire(f);
    SelfSynchronisation(FRESH, f);
  }

  // ---------- frames that were cut ----------

  lemma StuffPush(s: seq<bv8>)
    requires s != []
    ensures Stuff(s) == Stuff(s[..|s| - 1]) + StuffByte(s[|s| - 1])
  {
  }

  /** A body with its last byte only escaped so far. */
  lemma ReadEscape(s: seq<bv8>)
    requires s != [] && |s| <= MAX_BODY && s[0] == 1 && NeedsEscape(s[|s| - 1])
    ensures Run(READY, Stuff(s[..|s| - 1]) + [ESCAPE]) == Reading(s[..|s| - 1]).(escaped := true)
  {
    hide Run;
    hide Next;
    hide Stuff;
    var n := |s| - 1;
    FirstIsPlain(s);
    ReadStuffed(s[..n]);
    RunConcat(READY, Stuff(s[..n]), [ESCAPE]);
    RunOne(Reading(s[..n]), ESCAPE);
    BeginsEscape(s[..n]);
  }

  /** Part of a stuffed body leaves part of the body in the decoder. */
  lemma {:induction false} ReadPart(s: seq<bv8>, k: nat) returns (m: nat)
    requires |s| <= MAX_BODY && (s != [] ==> s[0] == 1) && k <= |Stuff(s)|
    ensures m <= |s|
    ensures || Run(READY, Stuff(s)[..k]) == Reading(s[..m])
            || Run(READY, Stuff(s)[..k]) == Reading(s[..m]).(escaped := true)
  {
    hide Run;
    if s == [] {
      m := 0;
      RunEmpty(READY);
      assert Stuff(s)[..k] == [];
    } else {
      hide Stuff;
      var n := |s| - 1;
      StuffPush(s);
      var before := Stuff(s[..n]);
      if k <= |before| {
        assert Stuff(s)[..k] == before[..k];
        m := ReadPart(s[..n], k);
        assert s[..n][..m] == s[..m];
      } else if k == |Stuff(s)| {
        m := n + 1;
        assert s[..m] == s && Stuff(s)[..k] == Stuff(s);
        ReadStuffed(s);
      } else {
        m := n;
        CutStuffByte(s[n], k - |before|);
        assert Stuff(s)[..k] == before + [ESCAPE];
        ReadEscape(s);
      }
    }
  }

  lemma CutStuffByte(b: bv8, k: nat)
    requires 0 < k < |StuffByte(b)|
    ensures StuffByte(b)[..k] == [ESCAPE] && NeedsEscape(b)
  {
  }

  lemma BeginsEscape(body: seq<bv8>)
    ensures body != [] ==> Next(Reading(body), ESCAPE) == Reading(body).(escaped := true)
  {
  }

  /** The version byte is not escaped. */
  lemma FirstIsPlain(s: seq<bv8>)
    requires s != [] && s[0] == 1 && NeedsEscape(s[|s| - 1])
    ensures s[..|s| - 1] != []
  {
  }

  /** A beginning of a text, but not all of it. */
  predicate Cut(part: seq<bv8>, whole: seq<bv8>) {
    |part| < |whole| && part == whole[..|part|]
  }

  /** The same request, with its payload or a beginning of it. */
  predicate CutOf(g: Frame, f: Frame) {
    g.kind == f.kind && IdOf(g) == IdOf(f) && (g.payload == f.payload || Cut(g.payload, f.payload))
  }

  lemma BodyPart(f: Frame, g: Frame, m: nat)
    requires m <= |Body(f)| && Body(g) == Body(f)[..m]
    ensures CutOf(g, f)
  {
    hide Crc;
    hide Le32;
    hide Le64;
    hide FromLe32;
    hide FromLe64;
    var crc := Le32(Crc(Header(f)));
    HeaderFields(f, crc);
    HeaderFields(g, Le32(Crc(Header(g))));
    assert m == 18 + |g.payload|;
    assert Body(f)[..m][2..10] == Body(f)[2..10] && Body(f)[..m][10..14] == Body(f)[10..14];
    LittleEndian64(f.session);
    LittleEndian64(g.session);
    LittleEndian(f.request);
    LittleEndian(g.request);
    assert g.payload == Body(f)[14..14 + |g.payload|];
    assert |g.payload| <= |f.payload|;
    assert f.payload[..|g.payload|] == Body(f)[14..14 + |g.payload|];
  }

  /** What the next flag makes of a frame that was cut has the frame's number and a beginning of its payload. */
  lemma CutFrame(f: Frame, o: nat, g: Frame)
    requires Encodable(f) && 0 < o < |Wire(f)| && g in Ending(Run(FRESH, Wire(f)[..o]))
    ensures CutOf(g, f)
  {
    hide Run;
    hide Body;
    hide Stuff;
    hide Decode;
    var w := Wire(f);
    var stuffed := Stuff(Body(f));
    assert w[..o] == [FLAG] + stuffed[..o - 1];
    RunConcat(FRESH, [FLAG], stuffed[..o - 1]);
    RunOne(FRESH, FLAG);
    BodyStartsWithVersion(f);
    var m := ReadPart(Body(f), o - 1);
    var d := Run(FRESH, w[..o]);
    EndingIsBody(d, g);
    BodyPart(f, g, m);
  }

  lemma EndingIsBody(d: State, g: Frame)
    requires g in Ending(d)
    ensures !d.escaped && !d.overflow && Body(g) == d.body && |Ending(d)| == 1
  {
    hide Body;
    hide Decode;
    var s := AtFlag(d);
    GotFramesNothing();
    assert s[..|s| - 1] == [];
    assert s[0].Got? && s[0].frame == g;
    DecodedBody(d.body, g);
  }

  // ---------- typed text ----------

  /** Typed bytes complete what was left at most once; everything else they complete was typed into. */
  lemma {:induction false} TypedBytes(l: Line, bytes: seq<bv8>)
    ensures forall f :: f in Arrived(l, bytes) ==> f in Left(l) || f in TypedFrames(l, bytes, true)
    ensures forall f :: f in Left(Carry(l, bytes, true)) ==> f in Left(l)
    ensures forall f :: f in TypedFrames(l, bytes, true) ==> f in Arrived(l, bytes)
  {
    hide Ending;
    hide GotFrames;
    if bytes == [] {
      CarryNothing(l, true);
    } else {
      var n := |bytes| - 1;
      TypedBytes(l, bytes[..n]);
      TypedByte(l, bytes[..n], bytes[n]);
      assert bytes == bytes[..n] + [bytes[n]];
    }
  }

  lemma TypedByte(l: Line, bytes: seq<bv8>, b: bv8)
    ensures var before := Carry(l, bytes, true);
            && Arrived(l, bytes + [b]) == Arrived(l, bytes) + (if b == FLAG then Ending(before.decoder) else [])
            && TypedFrames(l, bytes + [b], true)
            == TypedFrames(l, bytes, true) + (if b == FLAG && before.typed then Ending(before.decoder) else [])
            && Left(Carry(l, bytes + [b], true)) == []
  {
    hide Run;
    hide Trace;
    hide Decode;
    var before := Carry(l, bytes, true);
    CarryRuns(l, bytes, true);
    CarryConcat(l, bytes, [b], true);
    RunConcat(l.decoder, bytes, [b]);
    RunOne(before.decoder, b);
    GotFramesConcat(Trace(l.decoder, bytes), Signals(before.decoder, b));
    assert [b][..0] == [];
    if b == FLAG {
      CarryFlag(before, true);
      assert Ending(READY) == [];
    } else {
      assert GotFrames(Signals(before.decoder, b)) == [] by { OnlyFlagsReport(before.decoder, b); }
    }
  }

  lemma OnlyFlagsReport(d: State, b: bv8)
    requires b != FLAG
    ensures GotFrames(Signals(d, b)) == []
  {
    if IsRaw(d, b) {
      assert [RawByte(b)][..0] == [];
    }
  }

  /** The frame left before some bytes, unless they are typed right into it. */
  function Kept(l: Line, bytes: seq<bv8>, typing: bool): seq<Frame> {
    if typing && bytes != [] && bytes[0] != FLAG then [] else Left(l)
  }

  lemma OneByteConserves(l: Line, b: bv8)
    ensures Ids(if b == FLAG then Ending(l.decoder) else [])
         == Ids(if b == FLAG then Left(l) else []) + Ids(if b == FLAG && l.typed then Ending(l.decoder) else [])
  {
    hide Ending;
    hide Ids;
    NoRequests([]);
  }

  /** What typed bytes complete, or leave, is exactly what was left before them and what they were typed into. */
  lemma {:induction false} TypingConserves(l: Line, bytes: seq<bv8>)
    ensures Ids(Arrived(l, bytes)) + Ids(Left(Carry(l, bytes, true)))
         == Ids(Kept(l, bytes, true)) + Ids(TypedFrames(l, bytes, true))
    ensures bytes != [] ==> Left(Carry(l, bytes, true)) == []
  {
    hide Ending;
    hide GotFrames;
    hide Ids;
    hide Carry;
    hide TypedFrames;
    hide Arrived;
    hide Left;
    NoRequests([]);
    CarryNothing(l, true);
    if bytes != [] {
      var n := |bytes| - 1;
      var before := Carry(l, bytes[..n], true);
      var more := if bytes[n] == FLAG then Ending(before.decoder) else [];
      var typed := if bytes[n] == FLAG && before.typed then Ending(before.decoder) else [];
      assert bytes == bytes[..n] + [bytes[n]];
      TypedByte(l, bytes[..n], bytes[n]);
      TypingConserves(l, bytes[..n]);
      OneByteConserves(before, bytes[n]);
      IdsConcat(Arrived(l, bytes[..n]), more);
      IdsConcat(TypedFrames(l, bytes[..n], true), typed);
      if n == 0 {
        assert bytes[..n] == [] && before == l;
        assert Kept(l, bytes, true) == if bytes[n] == FLAG then Left(l) else [];
      } else {
        assert Kept(l, bytes, true) == Kept(l, bytes[..n], true);
        assert Left(before) == [];
      }
    }
  }

  // ---------- a device that resets ----------

  /** A decoder that starts afresh in the middle of a stream reports nothing that the old one would not. */
  lemma {:induction false} FreshReportsNoMore(d: State, bytes: seq<bv8>)
    ensures forall f :: f in GotFrames(Trace(FRESH, bytes)) ==> f in GotFrames(Trace(d, bytes))
    ensures FLAG in bytes ==> Run(FRESH, bytes) == Run(d, bytes)
  {
    hide Next;
    hide Signals;
    if bytes != [] {
      var n := |bytes| - 1;
      FreshReportsNoMore(d, bytes[..n]);
      GotFramesConcat(Trace(FRESH, bytes[..n]), Signals(Run(FRESH, bytes[..n]), bytes[n]));
      GotFramesConcat(Trace(d, bytes[..n]), Signals(Run(d, bytes[..n]), bytes[n]));
      if FLAG !in bytes[..n] {
        ReadText(FRESH, bytes[..n]);
        FreshByte(d, bytes[n], Run(d, bytes[..n]));
      }
    }
  }

  lemma FreshByte(d: State, b: bv8, before: State)
    ensures GotFrames(Signals(FRESH, b)) == []
    ensures b == FLAG ==> Next(FRESH, b) == Next(before, b)
  {
    if b != FLAG {
      OnlyFlagsReport(FRESH, b);
    }
  }

  lemma UngroupLast(items: seq<Decoded>)
    requires items != []
    ensures Ungroup(items) == Ungroup(items[..|items| - 1]) + UngroupOne(items[|items| - 1])
  {
  }

  lemma {:induction false} ItemsAreGot(items: seq<Decoded>, f: Frame)
    requires FrameItem(f) in items
    ensures f in GotFrames(Ungroup(items))
  {
    hide UngroupOne;
    hide Ungroup;
    hide GotFrames;
    var n := |items| - 1;
    UngroupLast(items);
    GotFramesConcat(Ungroup(items[..n]), UngroupOne(items[n]));
    if items[n] == FrameItem(f) {
      GotItem(f);
      GotFramesOne(f);
    } else {
      ItemsAreGot(items[..n], f);
    }
  }

  lemma GotItem(f: Frame)
    ensures UngroupOne(FrameItem(f)) == [Got(f)]
  {
  }

  /**
   Whoever begins to listen at some point of a stream, and however its bytes are cut into reads, each frame it is
   given is one that the decoder of the whole stream reports.
   */
  lemma ListenerSeesArrivals(l: Line, earlier: seq<bv8>, read: seq<bv8>, f: Frame)
    requires FrameItem(f) in Items(Run(FRESH, earlier), read)
    ensures f in Arrived(l, earlier + read)
  {
    hide Run;
    hide Trace;
    hide Items;
    hide GotFrames;
    var d := Run(FRESH, earlier);
    ItemsLossless(d, read);
    ItemsAreGot(Items(d, read), f);
    RunConcat(FRESH, earlier, read);
    GotFramesConcat(Trace(FRESH, earlier), Trace(d, read));
    FreshReportsNoMore(l.decoder, earlier + read);
  }

  /** A decoder that starts afresh reports nothing before the next flag, and nothing else from then on. */
  lemma ResetOnlyLoses(d: State, a: seq<bv8>, b: seq<bv8>)
    requires FLAG !in a
    ensures GotFrames(Trace(FRESH, a + [FLAG] + b)) == GotFrames(Trace(READY, b))
    ensures GotFrames(Trace(d, a + [FLAG] + b)) == Ending(Run(d, a)) + GotFrames(Trace(READY, b))
    ensures Run(d, a + [FLAG] + b) == Run(FRESH, a + [FLAG] + b)
  {
    hide Run;
    hide Trace;
    hide Next;
    ReadUntilFlag(d, a, b);
    ReadUntilFlag(FRESH, a, b);
    ReadText(FRESH, a);
    assert Ending(FRESH) == [];
  }

  lemma ReadUntilFlag(d: State, a: seq<bv8>, b: seq<bv8>)
    requires FLAG !in a
    ensures GotFrames(Trace(d, a + [FLAG] + b)) == Ending(Run(d, a)) + GotFrames(Trace(READY, b))
    ensures Run(d, a + [FLAG] + b) == Run(READY, b)
  {
    hide Run;
    hide Trace;
    hide GotFrames;
    RunConcat(d, a + [FLAG], b);
    RunConcat(d, a, [FLAG]);
    RunOne(Run(d, a), FLAG);
    GotFramesConcat(Trace(d, a + [FLAG]), Trace(READY, b));
    GotFramesConcat(Trace(d, a), AtFlag(Run(d, a)));
    NoFlagNoFrame(d, a);
  }

  lemma {:induction false} NoFlagNoFrame(d: State, a: seq<bv8>)
    requires FLAG !in a
    ensures GotFrames(Trace(d, a)) == []
  {
    hide Next;
    hide Signals;
    if a != [] {
      var n := |a| - 1;
      NoFlagNoFrame(d, a[..n]);
      OnlyFlagsReport(Run(d, a[..n]), a[n]);
      GotFramesConcat(Trace(d, a[..n]), Signals(Run(d, a[..n]), a[n]));
    }
  }
}
