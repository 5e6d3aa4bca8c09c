/**
 Whole streams through the codec of src/mux.rs: every frame survives the trip, text between frames is
 returned as text, and a decoder in any state finds its way back at the next frame.
 */
module MuxStream {
  import opened Crc32
  import opened Mux
  import opened MuxDecoder

  // ---------- octet stuffing is transparent ----------

  lemma StuffByteHasNoFlag(b: bv8)
    ensures FLAG !in StuffByte(b)
  {
    assert b == FLAG ==> b ^ 0x20 != FLAG;
    assert b == ESCAPE ==> b ^ 0x20 != FLAG;
  }

  lemma {:induction false} StuffHasNoFlag(s: seq<bv8>)
    ensures FLAG !in Stuff(s)
  {
    if s != [] {
      StuffHasNoFlag(s[..|s| - 1]);
      StuffByteHasNoFlag(s[|s| - 1]);
    }
  }

  lemma UnstuffByte(b: bv8)
    ensures (b ^ 0x20) ^ 0x20 == b
  {
  }

  function Reading(body: seq<bv8>): State {
    State(true, false, false, body)
  }

  lemma RunOne(d: State, b: bv8)
    ensures Run(d, [b]) == Next(d, b) && Trace(d, [b]) == Signals(d, b)
  {
    hide Next;
    hide Signals;
    assert [b][..0] == [];
  }

  lemma RunTwo(d: State, b: bv8, c: bv8)
    ensures Run(d, [b, c]) == Next(Next(d, b), c)
    ensures Trace(d, [b, c]) == Signals(d, b) + Signals(Next(d, b), c)
  {
    hide Next;
    hide Signals;
    RunOne(d, b);
    assert [b, c][..1] == [b];
  }

  /** One stuffed byte is one more byte of the body. */
  lemma ReadStuffedByte(body: seq<bv8>, b: bv8)
    requires |body| < MAX_BODY
    requires body != [] || b == 1
    ensures Run(Reading(body), StuffByte(b)) == Reading(body + [b])
    ensures Trace(Reading(body), StuffByte(b)) == []
  {
    if NeedsEscape(b) {
      UnstuffByte(b);
      StuffByteHasNoFlag(b);
      assert StuffByte(b)[1] != FLAG;
      RunTwo(Reading(body), ESCAPE, b ^ 0x20);
    } else {
      RunOne(Reading(body), b);
    }
  }

  lemma {:induction false} ReadStuffed(s: seq<bv8>)
    requires |s| <= MAX_BODY
    requires s != [] ==> s[0] == 1
    ensures Run(READY, Stuff(s)) == Reading(s)
    ensures Trace(READY, Stuff(s)) == []
  {
    hide Next;
    hide Signals;
    hide StuffByte;
    if s != [] {
      var n := |s| - 1;
      ReadStuffed(s[..n]);
      RunConcat(READY, Stuff(s[..n]), StuffByte(s[n]));
      ReadStuffedByte(s[..n], s[n]);
      assert s[..n] + [s[n]] == s;
    }
  }

  // ---------- one frame ----------

  lemma BodyStartsWithVersion(f: Frame)
    ensures Body(f)[0] == 1
  {
    hide Crc;
    hide Le32;
    hide Le64;
  }

  /** All of a frame's wire form but the closing flag only fills the body. */
  lemma FrameUpToFlag(d: State, f: Frame)
    requires Encodable(f)
    ensures Run(d, [FLAG] + Stuff(Body(f))) == Reading(Body(f))
    ensures Trace(d, [FLAG] + Stuff(Body(f))) == AtFlag(d)
  {
    hide Body;
    RunConcat(d, [FLAG], Stuff(Body(f)));
    RunOne(d, FLAG);
    BodyStartsWithVersion(f);
    ReadStuffed(Body(f));
  }

  /** From any reachable state, one frame ends with that frame after at most one other, non-raw signal. */
  lemma SelfSynchronisation(d: State, f: Frame)
    requires Inv(d) && Encodable(f)
    ensures Run(d, Wire(f)) == READY
    ensures Trace(d, Wire(f)) == AtFlag(d) + [Got(f)]
    ensures |AtFlag(d)| <= 1 && forall s :: s in AtFlag(d) ==> !s.RawByte?
  {
    hide Body;
    hide Decode;
    var open := [FLAG] + Stuff(Body(f));
    FrameUpToFlag(d, f);
    RunConcat(d, open, [FLAG]);
    RunOne(Reading(Body(f)), FLAG);
    BodyStartsWithVersion(f);
    DecodeBody(f);
  }

  /** A proper prefix of a frame yields at most what its opening flag ends. */
  lemma PartialFrame(d: State, f: Frame, n: nat)
    requires Encodable(f) && n < |Wire(f)|
    ensures Trace(d, Wire(f)[..n]) == if n == 0 then [] else AtFlag(d)
  {
    hide Body;
    hide Run;
    hide Trace;
    hide Stuff;
    if n == 0 {
      RunEmpty(d);
      assert Wire(f)[..0] == [];
    } else {
      var open := [FLAG] + Stuff(Body(f));
      FrameUpToFlag(d, f);
      assert Wire(f)[..n] == open[..n] == [FLAG] + open[1..n];
      assert open == open[..n] + open[n..];
      RunConcat(d, open[..n], open[n..]);
      RunConcat(d, [FLAG], open[1..n]);
      RunOne(d, FLAG);
    }
  }

  /** The frame a complete wire form stands for. */
  function DecodeWire(wire: seq<bv8>): Option<Frame> {
    var t := Trace(FRESH, wire);
    if |t| == 1 && t[0].Got? then Some(t[0].frame) else None
  }

  lemma DecodeWireOfFrame(f: Frame)
    requires Encodable(f)
    ensures DecodeWire(Wire(f)) == Some(f)
  {
    hide Wire;
    SelfSynchronisation(FRESH, f);
  }

  /** Two frames never share a wire form. */
  lemma WireInjective(f: Frame, g: Frame)
    requires Encodable(f) && Encodable(g) && Wire(f) == Wire(g)
    ensures f == g
  {
    hide Wire;
    DecodeWireOfFrame(f);
    DecodeWireOfFrame(g);
  }

  /** A decoder only reports frames that could have been encoded. */
  lemma {:induction false} GotFramesAreEncodable(d: State, bytes: seq<bv8>, f: Frame)
    requires Inv(d) && Got(f) in Trace(d, bytes)
    ensures Encodable(f)
  {
    hide Next;
    if bytes != [] {
      var n := |bytes| - 1;
      var before := Run(d, bytes[..n]);
      RunKeepsInv(d, bytes[..n]);
      if Got(f) in Trace(d, bytes[..n]) {
        GotFramesAreEncodable(d, bytes[..n], f);
      } else {
        assert Got(f) in Signals(before, bytes[n]);
        DecodedBody(before.body, f);
      }
    }
  }

  // ---------- frames back to back ----------

  function Wires(frames: seq<Frame>): seq<bv8> {
    if frames == [] then [] else Wires(frames[..|frames| - 1]) + Wire(frames[|frames| - 1])
  }

  function Gots(frames: seq<Frame>): seq<Signal> {
    if frames == [] then [] else Gots(frames[..|frames| - 1]) + [Got(frames[|frames| - 1])]
  }

  /** From any state, frames come back in their order after at most what the first flag ends. */
  lemma {:induction false} FramesDecode(d: State, frames: seq<Frame>)
    requires Inv(d) && forall f :: f in frames ==> Encodable(f)
    ensures Trace(d, Wires(frames)) == (if frames == [] then [] else AtFlag(d)) + Gots(frames)
    ensures Run(d, Wires(frames)) == if frames == [] then d else READY
  {
    hide Wire;
    hide Run;
    hide Trace;
    hide AtFlag;
    hide Encodable;
    if frames == [] {
      RunEmpty(d);
    } else {
      var n := |frames| - 1;
      FramesDecode(d, frames[..n]);
      RunConcat(d, Wires(frames[..n]), Wire(frames[n]));
      SelfSynchronisation(Run(d, Wires(frames[..n])), frames[n]);
      ReadyIsClean();
    }
  }

  lemma ReadyIsClean()
    ensures Inv(READY) && AtFlag(READY) == []
  {
  }

  // ---------- frames mixed with text ----------

  datatype Piece = FramePiece(frame: Frame) | TextPiece(text: seq<bv8>)

  function PieceBytes(p: Piece): seq<bv8> {
    match p
    case FramePiece(f) => Wire(f)
    case TextPiece(t) => t
  }

  function PieceSignals(p: Piece): seq<Signal> {
    match p
    case FramePiece(f) => [Got(f)]
    case TextPiece(t) => RawSignals(t)
  }

  function StreamBytes(pieces: seq<Piece>): seq<bv8> {
    if pieces == [] then [] else StreamBytes(pieces[..|pieces| - 1]) + PieceBytes(pieces[|pieces| - 1])
  }

  function StreamSignals(pieces: seq<Piece>): seq<Signal> {
    if pieces == [] then [] else StreamSignals(pieces[..|pieces| - 1]) + PieceSignals(pieces[|pieces| - 1])
  }

  /** The last piece with any bytes is a frame: the next text is read as the start of another. */
  predicate AfterFrame(pieces: seq<Piece>) {
    pieces != [] &&
    var last := pieces[|pieces| - 1];
    last.FramePiece? || (last.text == [] && AfterFrame(pieces[..|pieces| - 1]))
  }

  /** Text without flags, and not beginning with the version byte right after a frame. */
  predicate Readable(pieces: seq<Piece>) {
    pieces == [] ||
    var n := |pieces| - 1;
    && Readable(pieces[..n])
    && match pieces[n]
       case FramePiece(f) => Encodable(f)
       case TextPiece(t) => FLAG !in t && (t != [] && AfterFrame(pieces[..n]) ==> t[0] != 1)
  }

  lemma {:induction false} ReadText(d: State, t: seq<bv8>)
    requires d == FRESH || (d == READY && (t != [] ==> t[0] != 1))
    requires FLAG !in t
    ensures Trace(d, t) == RawSignals(t)
    ensures Run(d, t) == if t == [] then d else FRESH
  {
    if t != [] {
      var n := |t| - 1;
      ReadText(d, t[..n]);
      assert RawSignals(t) == RawSignals(t[..n]) + [RawByte(t[n])];
    }
  }

  /** Decoding any mix of frames and text returns that mix. */
  lemma {:induction false} StreamRoundTrip(pieces: seq<Piece>)
    requires Readable(pieces)
    ensures Trace(FRESH, StreamBytes(pieces)) == StreamSignals(pieces)
    ensures Run(FRESH, StreamBytes(pieces)) == if AfterFrame(pieces) then READY else FRESH
  {
    hide Wire;
    hide Run;
    hide Trace;
    hide Encodable;
    if pieces != [] {
      var n := |pieces| - 1;
      StreamRoundTrip(pieces[..n]);
      var d := Run(FRESH, StreamBytes(pieces[..n]));
      RunConcat(FRESH, StreamBytes(pieces[..n]), PieceBytes(pieces[n]));
      match pieces[n] {
        case FramePiece(f) =>
          SelfSynchronisation(d, f);
        case TextPiece(t) =>
          ReadText(d, t);
      }
    } else {
      RunEmpty(FRESH);
    }
  }

  /** And it does so however the stream is cut into reads. */
  lemma StreamRoundTripInChunks(pieces: seq<Piece>, chunks: seq<seq<bv8>>)
    requires Readable(pieces) && Join(chunks) == StreamBytes(pieces)
    ensures RunChunks(FRESH, chunks).1 == StreamSignals(pieces)
  {
    StreamRoundTrip(pieces);
    ChunkIndependence(FRESH, chunks);
  }

  lemma {:induction false} QuietBytes(d: State, t: seq<bv8>)
    requires FLAG !in t
    ensures |Trace(d, t)| <= |t|
  {
    if t != [] {
      QuietBytes(d, t[..|t| - 1]);
    }
  }

  /** The exact limit: right after a frame, text comes back as text unless it starts with the version byte. */
  lemma TextAfterFrame(t: seq<bv8>)
    requires FLAG !in t
    ensures Trace(READY, t) == RawSignals(t) <==> t == [] || t[0] != 1
  {
    if t == [] || t[0] != 1 {
      ReadText(READY, t);
    } else {
      assert t == [t[0]] + t[1..];
      RunConcat(READY, [t[0]], t[1..]);
      RunOne(READY, t[0]);
      QuietBytes(Run(READY, [t[0]]), t[1..]);
      assert |Trace(READY, t)| < |RawSignals(t)|;
    }
  }

  // ---------- bodies that are no frame ----------

  const TOO_LONG := State(true, false, true, [])

  lemma {:induction false} StaysTooLong(t: seq<bv8>)
    requires FLAG !in t
    ensures Run(TOO_LONG, t) == TOO_LONG && Trace(TOO_LONG, t) == []
  {
    if t != [] {
      StaysTooLong(t[..|t| - 1]);
    }
  }

  lemma OneTooMany(body: seq<bv8>, b: bv8)
    requires |body| == MAX_BODY
    ensures Run(Reading(body), StuffByte(b)) == TOO_LONG && Trace(Reading(body), StuffByte(b)) == []
  {
    if NeedsEscape(b) {
      StuffByteHasNoFlag(b);
      assert StuffByte(b)[1] != FLAG;
      RunTwo(Reading(body), ESCAPE, b ^ 0x20);
    } else {
      RunOne(Reading(body), b);
    }
  }

  lemma {:induction false} ReadTooLong(s: seq<bv8>)
    requires |s| > MAX_BODY && s[0] == 1
    ensures Run(READY, Stuff(s)) == TOO_LONG && Trace(READY, Stuff(s)) == []
  {
    hide Run;
    hide Trace;
    hide StuffByte;
    var n := |s| - 1;
    RunConcat(READY, Stuff(s[..n]), StuffByte(s[n]));
    StuffByteHasNoFlag(s[n]);
    if n == MAX_BODY {
      ReadStuffed(s[..n]);
      OneTooMany(s[..n], s[n]);
    } else {
      ReadTooLong(s[..n]);
      StaysTooLong(StuffByte(s[n]));
    }
  }

  /** What stands between two flags, beginning with the version byte, is a frame, or is reported as corrupt. */
  lemma FrameOrCorrupt(s: seq<bv8>)
    requires s != [] && s[0] == 1
    ensures (exists f :: Encodable(f) && Body(f) == s && Trace(READY, Stuff(s) + [FLAG]) == [Got(f)])
         || ((forall f :: Encodable(f) ==> Body(f) != s) && Trace(READY, Stuff(s) + [FLAG]) == [Bad])
  {
    hide Body;
    hide Run;
    hide Trace;
    hide Stuff;
    hide Decode;
    RunConcat(READY, Stuff(s), [FLAG]);
    if |s| > MAX_BODY {
      ReadTooLong(s);
      RunOne(TOO_LONG, FLAG);
      LongerThanFrames(s);
    } else {
      ReadStuffed(s);
      RunOne(Reading(s), FLAG);
      if Decode(s).Some? {
        DecodedBody(s, Decode(s).value);
        FitsIntoFrame(Decode(s).value);
      } else {
        forall f | Encodable(f) ensures Body(f) != s {
          DecodeBody(f);
        }
      }
    }
  }

  lemma LongerThanFrames(s: seq<bv8>)
    requires |s| > MAX_BODY
    ensures forall f :: Encodable(f) ==> Body(f) != s
  {
    hide Crc;
    hide Le32;
  }

  lemma FitsIntoFrame(f: Frame)
    requires |Body(f)| <= MAX_BODY
    ensures |f.payload| <= MAX_PAYLOAD
  {
  }

  /** A body that ends in the middle of an escape is corrupt too. */
  lemma CutEscapeIsCorrupt(s: seq<bv8>)
    requires s != [] && s[0] == 1
    ensures Trace(READY, Stuff(s) + [ESCAPE, FLAG]) == [Bad]
  {
    hide Run;
    hide Trace;
    hide Stuff;
    hide Decode;
    RunConcat(READY, Stuff(s), [ESCAPE, FLAG]);
    if |s| > MAX_BODY {
      ReadTooLong(s);
      RunTwo(TOO_LONG, ESCAPE, FLAG);
    } else {
      ReadStuffed(s);
      RunTwo(Reading(s), ESCAPE, FLAG);
    }
  }
}
