/**
 The incremental decoder of src/mux.rs: byte-by-byte specification, the Decoder class that refines it,
 independence of how the stream is cut into reads, and what a stream of frames and text decodes to.
 */
module MuxDecoder {
  import opened Mux

  /** The fields of Decoder. */
  datatype State = State(inFrame: bool, escaped: bool, overflow: bool, body: seq<bv8>)

  /** What one byte can bring to light. */
  datatype Signal = RawByte(b: bv8) | Got(frame: Frame) | Bad

  /** The results of feed: raw bytes of one call are reported together up to the next flag. */
  datatype Decoded = FrameItem(frame: Frame) | Raw(data: seq<bv8>) | Corrupt

  const FRESH := State(false, false, false, [])
  /** Right after a closing flag. */
  const READY := State(true, false, false, [])

  function Judge(body: seq<bv8>): Signal {
    match Decode(body)
    case Some(f) => Got(f)
    case None => Bad
  }

  function AtFlag(d: State): seq<Signal> {
    if !d.inFrame then []
    else if d.overflow || d.escaped then [Bad]
    else if d.body != [] then [Judge(d.body)]
    else []
  }

  predicate IsRaw(d: State, b: bv8) {
    !d.inFrame || (d.body == [] && !d.escaped && !d.overflow && b != 1)
  }

  function Append(d: State, b: bv8): State {
    if |d.body| == MAX_BODY then d.(body := [], overflow := true, escaped := false)
    else d.(body := d.body + [b], escaped := false)
  }

  /** The effect of one byte on the decoder. */
  function Next(d: State, b: bv8): State {
    if b == FLAG then READY
    else if IsRaw(d, b) then d.(inFrame := false)
    else if d.overflow then d
    else if d.escaped then Append(d, b ^ 0x20)
    else if b == ESCAPE then d.(escaped := true)
    else Append(d, b)
  }

  function Signals(d: State, b: bv8): seq<Signal> {
    if b == FLAG then AtFlag(d) else if IsRaw(d, b) then [RawByte(b)] else []
  }

  function Run(d: State, bytes: seq<bv8>): State {
    if bytes == [] then d else Next(Run(d, bytes[..|bytes| - 1]), bytes[|bytes| - 1])
  }

  function Trace(d: State, bytes: seq<bv8>): seq<Signal> {
    if bytes == [] then []
    else Trace(d, bytes[..|bytes| - 1]) + Signals(Run(d, bytes[..|bytes| - 1]), bytes[|bytes| - 1])
  }

  /** What every reachable decoder satisfies. */
  predicate Inv(d: State) {
    && (!d.inFrame ==> d == FRESH)
    && (d.overflow ==> d.body == [] && !d.escaped)
    && (d.escaped ==> d.body != [])
    && (d.body != [] ==> d.body[0] == 1)
    && |d.body| <= MAX_BODY
  }

  lemma NextKeepsInv(d: State, b: bv8)
    requires Inv(d)
    ensures Inv(Next(d, b))
  {
  }

  lemma {:induction false} RunKeepsInv(d: State, bytes: seq<bv8>)
    requires Inv(d)
    ensures Inv(Run(d, bytes))
  {
    if bytes != [] {
      RunKeepsInv(d, bytes[..|bytes| - 1]);
    }
  }

  // ---------- chunk independence ----------

  /** Cutting the stream into two reads changes neither the signals nor the decoder. */
  lemma {:induction false} RunConcat(d: State, a: seq<bv8>, b: seq<bv8>)
    ensures Run(d, a + b) == Run(Run(d, a), b)
    ensures Trace(d, a + b) == Trace(d, a) + Trace(Run(d, a), b)
  {
    hide Next;
    hide Signals;
    if b == [] {
      assert a + b == a;
    } else {
      var n := |b| - 1;
      assert (a + b)[..|a + b| - 1] == a + b[..n];
      RunConcat(d, a, b[..n]);
    }
  }

  function RunChunks(d: State, chunks: seq<seq<bv8>>): (State, seq<Signal>)
    decreases |chunks|
  {
    if chunks == [] then (d, [])
    else
      var rest := RunChunks(Run(d, chunks[0]), chunks[1..]);
      (rest.0, Trace(d, chunks[0]) + rest.1)
  }

  function Join<T>(parts: seq<seq<T>>): seq<T> {
    if parts == [] then [] else parts[0] + Join(parts[1..])
  }

  /** Every split of a stream into reads gives the same signals. */
  lemma {:induction false} ChunkIndependence(d: State, chunks: seq<seq<bv8>>)
    ensures RunChunks(d, chunks) == (Run(d, Join(chunks)), Trace(d, Join(chunks)))
    decreases |chunks|
  {
    hide Run;
    hide Trace;
    if chunks != [] {
      ChunkIndependence(Run(d, chunks[0]), chunks[1..]);
      RunConcat(d, chunks[0], Join(chunks[1..]));
    } else {
      RunEmpty(d);
    }
  }

  lemma RunEmpty(d: State)
    ensures Run(d, []) == d && Trace(d, []) == []
  {
  }

  // ---------- the items of one feed call ----------

  function Flush(items: seq<Decoded>, raw: seq<bv8>): seq<Decoded> {
    if raw == [] then items else items + [Raw(raw)]
  }

  function Reported(signals: seq<Signal>): seq<Decoded> {
    if signals == [] then []
    else [if signals[0].Got? then FrameItem(signals[0].frame) else Corrupt]
  }

  /** Items completed so far and the raw bytes since the last flag. */
  function Collect(d: State, bytes: seq<bv8>): (seq<Decoded>, seq<bv8>) {
    if bytes == [] then ([], [])
    else
      var (items, raw) := Collect(d, bytes[..|bytes| - 1]);
      var b := bytes[|bytes| - 1];
      var before := Run(d, bytes[..|bytes| - 1]);
      if b == FLAG then (Flush(items, raw) + Reported(AtFlag(before)), [])
      else if IsRaw(before, b) then (items, raw + [b])
      else (items, raw)
  }

  function Items(d: State, bytes: seq<bv8>): seq<Decoded> {
    Flush(Collect(d, bytes).0, Collect(d, bytes).1)
  }

  function RawSignals(data: seq<bv8>): seq<Signal> {
    seq(|data|, i requires 0 <= i < |data| => RawByte(data[i]))
  }

  function Ungroup(items: seq<Decoded>): seq<Signal> {
    if items == [] then [] else Ungroup(items[..|items| - 1]) + UngroupOne(items[|items| - 1])
  }

  function UngroupOne(item: Decoded): seq<Signal> {
    match item
    case FrameItem(f) => [Got(f)]
    case Corrupt => [Bad]
    case Raw(data) => RawSignals(data)
  }

  lemma UngroupPush(items: seq<Decoded>, item: Decoded)
    ensures Ungroup(items + [item]) == Ungroup(items) + UngroupOne(item)
  {
    assert (items + [item])[..|items + [item]| - 1] == items;
  }

  lemma UngroupFlush(items: seq<Decoded>, raw: seq<bv8>)
    ensures Ungroup(Flush(items, raw)) == Ungroup(items) + RawSignals(raw)
  {
    if raw != [] {
      UngroupPush(items, Raw(raw));
    }
  }

  lemma UngroupReported(items: seq<Decoded>, d: State)
    ensures Ungroup(items + Reported(AtFlag(d))) == Ungroup(items) + AtFlag(d)
  {
    if AtFlag(d) == [] {
      assert items + Reported(AtFlag(d)) == items;
    } else {
      UngroupPush(items, Reported(AtFlag(d))[0]);
    }
  }

  lemma {:induction false} CollectLossless(d: State, bytes: seq<bv8>)
    ensures Ungroup(Collect(d, bytes).0) + RawSignals(Collect(d, bytes).1) == Trace(d, bytes)
  {
    hide Next;
    hide IsRaw;
    hide AtFlag;
    hide Reported;
    hide Ungroup;
    if bytes == [] {
      assert Collect(d, bytes) == ([], []);
      assert Ungroup([]) == [] by { UngroupEmpty(); }
    } else {
      var n := |bytes| - 1;
      CollectLossless(d, bytes[..n]);
      var (items, raw) := Collect(d, bytes[..n]);
      var before := Run(d, bytes[..n]);
      UngroupFlush(items, raw);
      UngroupReported(Flush(items, raw), before);
      assert RawSignals(raw + [bytes[n]]) == RawSignals(raw) + [RawByte(bytes[n])];
      assert RawSignals([]) == [];
    }
  }

  lemma UngroupEmpty()
    ensures Ungroup([]) == []
  {
  }

  /** feed reports exactly the signals of its bytes: nothing is lost, invented or reordered. */
  lemma ItemsLossless(d: State, bytes: seq<bv8>)
    ensures Ungroup(Items(d, bytes)) == Trace(d, bytes)
  {
    CollectLossless(d, bytes);
    UngroupFlush(Collect(d, bytes).0, Collect(d, bytes).1);
  }

  // ---------- Decoder::feed ----------

  class Decoder {
    var inFrame: bool
    var escaped: bool
    var overflow: bool
    var body: seq<bv8>

    function Value(): State
      reads this
    {
      State(inFrame, escaped, overflow, body)
    }

    constructor ()
      ensures Value() == FRESH
    {
      inFrame, escaped, overflow, body := false, false, false, [];
    }

    method Feed(bytes: seq<bv8>) returns (result: seq<Decoded>)
      requires Inv(Value())
      modifies this
      ensures Value() == Run(old(Value()), bytes) && Inv(Value())
      ensures result == Items(old(Value()), bytes)
    {
      hide Decode;
      result := [];
      var raw: seq<bv8> := [];
      ghost var start := Value();
      for i := 0 to |bytes|
        invariant Value() == Run(start, bytes[..i]) && Inv(Value())
        invariant (result, raw) == Collect(start, bytes[..i])
      {
        assert bytes[..i + 1][..i] == bytes[..i];
        var b := bytes[i];
        ghost var before := Value();
        ghost var items := Flush(result, raw);
        NextKeepsInv(before, b);
        if b == 0x7e {
          if raw != [] {
            result := result + [Raw(raw)];
            raw := [];
          }
          if inFrame {
            if overflow || escaped {
              result := result + [Corrupt];
            } else if body != [] {
              var decoded := Decode(body);
              result := result + [match decoded case Some(f) => FrameItem(f) case None => Corrupt];
            }
            body := [];
            escaped := false;
            overflow := false;
            inFrame := true;
          } else {
            inFrame := true;
          }
          assert result == items + Reported(AtFlag(before));
        } else if !inFrame || (body == [] && !escaped && !overflow && b != 1) {
          inFrame := false;
          raw := raw + [b];
        } else if !overflow {
          if escaped {
            body := body + [b ^ 0x20];
            escaped := false;
          } else if b == 0x7d {
            escaped := true;
          } else {
            body := body + [b];
          }
          if |body| > MAX_BODY {
            body := [];
            overflow := true;
          }
        }
        assert Value() == Next(before, b);
      }
      assert bytes[..|bytes|] == bytes;
      if raw != [] {
        result := result + [Raw(raw)];
      }
    }
  }
}
