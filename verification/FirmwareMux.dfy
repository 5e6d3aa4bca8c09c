/**
 The device's codec, mux_codec.c, on its own buffers. Its results are tied to the host's codec: the two
 encoders write the same bytes and the two decoders report the same things at the same bytes.
 */
module FirmwareMux {
  import opened Crc32
  import opened Mux
  import opened MuxDecoder

  const MUX_MAX_WIRE := MAX_BODY * 2 + 2

  // ---------- get and put ----------

  /** A byte moved up by i bytes, the shift by 8 * i of get. */
  function Shifted(b: bv8, i: nat): bv64
    requires i < 8
  {
    var w := b as bv64;
    match i
    case 0 => w
    case 1 => w << 8
    case 2 => w << 16
    case 3 => w << 24
    case 4 => w << 32
    case 5 => w << 40
    case 6 => w << 48
    case _ => w << 56
  }

  /** The low byte after the shift by 8 * i of put. */
  function ByteAt(value: bv64, i: nat): bv8
    requires i < 8
  {
    var w := match i
             case 0 => value
             case 1 => value >> 8
             case 2 => value >> 16
             case 3 => value >> 24
             case 4 => value >> 32
             case 5 => value >> 40
             case 6 => value >> 48
             case _ => value >> 56;
    (w & 0xff) as bv8
  }

  function Wide(w: bv32): bv64 {
    w as bv64
  }

  /** The truncating assignment of a uint64_t to a uint32_t. */
  function Narrow(w: bv64): bv32 {
    (w & 0xffffffff) as bv32
  }

  function Gather(s: seq<bv8>): bv64
    requires |s| <= 8
  {
    if s == [] then 0 else Or(Gather(s[..|s| - 1]), Shifted(s[|s| - 1], |s| - 1))
  }

  method Get(p: array<bv8>, at: nat, n: nat) returns (value: bv64)
    requires n <= 8 && at + n <= p.Length
    ensures value == Gather(p[at..at + n])
  {
    hide Shifted;
    value := 0;
    for i := 0 to n
      invariant value == Gather(p[at..at + i])
    {
      assert p[at..at + i + 1][..i] == p[at..at + i];
      ghost var before := value;
      value := value | Shifted(p[at + i], i);
      assert value == Or(before, Shifted(p[at + i], i));
    }
  }

  function Spread(value: bv64, n: nat): (r: seq<bv8>)
    requires n <= 8
    ensures |r| == n
  {
    seq(n, i requires 0 <= i < n => ByteAt(value, i))
  }

  method Put(p: array<bv8>, at: nat, value: bv64, n: nat)
    requires n <= 8 && at + n <= p.Length
    modifies p
    ensures p[..at + n] == old(p[..at]) + Spread(value, n)
    ensures p[at + n..] == old(p[at + n..])
  {
    hide ByteAt;
    for i := 0 to n
      invariant p[..at + i] == old(p[..at]) + Spread(value, n)[..i]
      invariant p[at + n..] == old(p[at + n..])
    {
      p[at + i] := ByteAt(value, i);
      assert p[..at + i + 1] == p[..at + i] + [ByteAt(value, i)];
    }
  }

  lemma GatherPush(s: seq<bv8>, b: bv8)
    requires |s| < 8
    ensures Gather(s + [b]) == Or(Gather(s), Shifted(b, |s|))
  {
    assert (s + [b])[..|s|] == s;
  }

  lemma GatherFour(a: bv8, b: bv8, c: bv8, d: bv8)
    ensures Gather([a, b, c, d]) == Or(Or(Or(Or(0, Shifted(a, 0)), Shifted(b, 1)), Shifted(c, 2)), Shifted(d, 3))
  {
    hide Or;
    hide Shifted;
    GatherPush([], a);
    GatherPush([a], b);
    GatherPush([a, b], c);
    GatherPush([a, b, c], d);
    assert [] + [a] == [a] && [a] + [b] == [a, b] && [a, b] + [c] == [a, b, c] && [a, b, c] + [d] == [a, b, c, d];
  }

  lemma GatherEight(a: bv8, b: bv8, c: bv8, d: bv8, e: bv8, f: bv8, g: bv8, h: bv8)
    ensures Gather([a, b, c, d, e, f, g, h])
         == Or(Or(Or(Or(Gather([a, b, c, d]), Shifted(e, 4)), Shifted(f, 5)), Shifted(g, 6)), Shifted(h, 7))
  {
    hide Or;
    hide Shifted;
    GatherPush([a, b, c, d], e);
    GatherPush([a, b, c, d, e], f);
    GatherPush([a, b, c, d, e, f], g);
    GatherPush([a, b, c, d, e, f, g], h);
    assert [a, b, c, d] + [e] == [a, b, c, d, e];
    assert [a, b, c, d, e] + [f] == [a, b, c, d, e, f];
    assert [a, b, c, d, e, f] + [g] == [a, b, c, d, e, f, g];
    assert [a, b, c, d, e, f, g] + [h] == [a, b, c, d, e, f, g, h];
  }

  lemma FirstShift(b: bv8)
    ensures Or(0, Shifted(b, 0)) == b as bv64
  {
  }

  lemma LaterShifts(b: bv8)
    ensures Shifted(b, 1) == (b as bv64) << 8 && Shifted(b, 2) == (b as bv64) << 16
    ensures Shifted(b, 3) == (b as bv64) << 24 && Shifted(b, 4) == (b as bv64) << 32
    ensures Shifted(b, 5) == (b as bv64) << 40 && Shifted(b, 6) == (b as bv64) << 48
    ensures Shifted(b, 7) == (b as bv64) << 56
  {
  }

  lemma ShiftsMakeWord64(a: bv8, b: bv8, c: bv8, d: bv8, e: bv8, f: bv8, g: bv8, h: bv8)
    ensures FromLe64([a, b, c, d, e, f, g, h])
         == Or(Or(Or(Or(Or(Or(Or(Or(0, Shifted(a, 0)), Shifted(b, 1)), Shifted(c, 2)), Shifted(d, 3)),
               Shifted(e, 4)), Shifted(f, 5)), Shifted(g, 6)), Shifted(h, 7))
  {
    hide Or;
    hide Shifted;
    FirstShift(a);
    LaterShifts(b);
    LaterShifts(c);
    LaterShifts(d);
    LaterShifts(e);
    LaterShifts(f);
    LaterShifts(g);
    LaterShifts(h);
  }

  /** get of eight bytes is from_le_bytes. */
  lemma GetIsFromLe64(s: seq<bv8>)
    requires |s| == 8
    ensures Gather(s) == FromLe64(s)
  {
    hide Or;
    hide Shifted;
    hide FromLe64;
    assert s == [s[0], s[1], s[2], s[3], s[4], s[5], s[6], s[7]];
    GatherFour(s[0], s[1], s[2], s[3]);
    GatherEight(s[0], s[1], s[2], s[3], s[4], s[5], s[6], s[7]);
    ShiftsMakeWord64(s[0], s[1], s[2], s[3], s[4], s[5], s[6], s[7]);
  }

  lemma ShiftsMakeWord32(a: bv8, b: bv8, c: bv8, d: bv8)
    ensures Wide(Word(a, b, c, d)) == Or(Or(Or(Or(0, Shifted(a, 0)), Shifted(b, 1)), Shifted(c, 2)), Shifted(d, 3))
  {
  }

  lemma GetIsFromLe32(s: seq<bv8>)
    requires |s| == 4
    ensures Gather(s) == Wide(FromLe32(s))
  {
    hide Wide;
    hide Or;
    hide Shifted;
    hide Word;
    assert s == [s[0], s[1], s[2], s[3]];
    GatherFour(s[0], s[1], s[2], s[3]);
    ShiftsMakeWord32(s[0], s[1], s[2], s[3]);
  }

  lemma PutIsLe64(w: bv64)
    ensures Le64(w) == Spread(w, 8)
  {
  }

  lemma PutIsLe32(w: bv32)
    ensures Le32(w) == Spread(Wide(w), 4)
  {
  }

  // ---------- mux_frame_t and mux_encode ----------

  class MuxFrame {
    var kind: bv8
    var session: bv64
    var request: bv32
    var size: nat
    const data: array<bv8>

    predicate Valid()
      reads this, data
    {
      data.Length == MAX_PAYLOAD && size <= MAX_PAYLOAD
    }

    function Value(): Frame
      requires Valid()
      reads this, data
    {
      Frame(kind, session, request, data[..size])
    }

    constructor ()
      ensures Valid() && fresh(data)
    {
      kind, session, request, size := 0, 0, 0, 0;
      data := new bv8[MAX_PAYLOAD];
    }
  }

  method WriteStuffed(b: bv8, wire: array<bv8>, at: nat) returns (out: nat)
    requires at + 2 <= wire.Length
    modifies wire
    ensures at < out <= at + 2 && wire[..out] == old(wire[..at]) + StuffByte(b)
  {
    out := at;
    if b == 0x7e || b == 0x7d {
      wire[out] := 0x7d;
      out := out + 1;
      wire[out] := b ^ 0x20;
      out := out + 1;
    } else {
      wire[out] := b;
      out := out + 1;
    }
  }

  /** Writes the stuffed body between two flags. */
  method WriteWire(body: array<bv8>, size: nat, wire: array<bv8>) returns (out: nat)
    requires size <= body.Length && size <= MAX_BODY && wire.Length >= MUX_MAX_WIRE && wire != body
    modifies wire
    ensures 0 < out <= MUX_MAX_WIRE && wire[..out] == [FLAG] + Stuff(body[..size]) + [FLAG]
  {
    hide StuffByte;
    out := 0;
    wire[out] := 0x7e;
    out := out + 1;
    ghost var plain := body[..size];
    for i := 0 to size
      invariant body[..size] == plain
      invariant out <= 1 + 2 * i && wire[..out] == [FLAG] + Stuff(plain[..i])
    {
      assert plain[..i + 1][..i] == plain[..i] && plain[i] == body[i];
      out := WriteStuffed(body[i], wire, out);
    }
    assert plain[..size] == plain;
    wire[out] := 0x7e;
    out := out + 1;
  }

  /** The header that mux_encode lays out field by field. */
  method LayOutHeader(f: MuxFrame, body: array<bv8>) returns (size: nat)
    requires f.Valid() && body.Length == MAX_BODY && body != f.data
    modifies body
    ensures size == 14 + f.size && body[..size] == Header(f.Value())
  {
    hide Spread;
    hide Wide;
    hide Le32;
    hide Le64;
    PutIsLe64(f.session);
    PutIsLe32(f.request);
    body[0] := 1;
    body[1] := f.kind;
    Put(body, 2, f.session, 8);
    Put(body, 10, Wide(f.request), 4);
    ghost var fields := [1, f.kind] + Le64(f.session) + Le32(f.request);
    assert body[..14] == fields;
    for i := 0 to f.size
      invariant body[..14 + i] == fields + f.data[..i]
    {
      body[14 + i] := f.data[i];
    }
    size := 14 + f.size;
  }

  /** mux_encode: the same bytes as Frame::encode, within MUX_MAX_WIRE, and nothing for an invalid frame. */
  method MuxEncode(f: MuxFrame, wire: array<bv8>) returns (out: nat)
    requires f.data.Length == MAX_PAYLOAD && wire.Length >= MUX_MAX_WIRE && wire != f.data
    modifies wire
    ensures out <= MUX_MAX_WIRE
    ensures (out != 0) == (f.Valid() && Encodable(f.Value()))
    ensures out != 0 ==> wire[..out] == Wire(f.Value())
    ensures out == 0 ==> wire[..] == old(wire[..])
  {
    if f.size > MAX_PAYLOAD || f.session == 0 || f.kind < 1 || f.kind > 7 {
      return 0;
    }
    hide Crc;
    hide Spread;
    hide Wide;
    hide Le32;
    ghost var frame := f.Value();
    var body := new bv8[MAX_BODY];
    var size := LayOutHeader(f, body);
    var crc := ComputeCrc(body[..size]);
    PutIsLe32(crc);
    Put(body, size, Wide(crc), 4);
    size := size + 4;
    assert body[..size] == Body(frame);
    out := WriteWire(body, size, wire);
  }

  // ---------- mux_decoder_t and mux_feed ----------

  class MuxDecoderState {
    var inside: bool
    var escaped: bool
    var overflow: bool
    var size: nat
    const data: array<bv8>

    predicate Valid()
      reads this, data
    {
      data.Length == MAX_BODY && size <= MAX_BODY
    }

    function Value(): State
      requires Valid()
      reads this, data
    {
      State(inside, escaped, overflow, data[..size])
    }

    constructor ()
      ensures Valid() && fresh(data) && Value() == FRESH
    {
      inside, escaped, overflow, size := false, false, false, 0;
      data := new bv8[MAX_BODY];
    }
  }

  /** The number mux_feed returns for what the host's decoder reports at the same byte. */
  function Code(signals: seq<Signal>): int {
    if signals == [] then 0
    else match signals[0] case Got(_) => 1 case RawByte(_) => 2 case Bad => -1
  }

  lemma Widening(v: bv32, w: bv32)
    ensures Wide(v) == Wide(w) <==> v == w
  {
  }

  lemma CrcByGet(body: seq<bv8>)
    requires |body| >= 18
    ensures CrcMatches(body) <==> Gather(body[|body| - 4..]) == Wide(Crc(body[..|body| - 4]))
  {
    hide Crc;
    hide Gather;
    hide Word;
    hide Wide;
    GetIsFromLe32(body[|body| - 4..]);
    Widening(FromLe32(body[|body| - 4..]), Crc(body[..|body| - 4]));
  }

  lemma SessionByGet(body: seq<bv8>)
    requires |body| >= 18
    ensures SessionOf(body) == Gather(body[2..10])
  {
    hide Gather;
    hide FromLe64;
    GetIsFromLe64(body[2..10]);
  }

  lemma RequestByGet(body: seq<bv8>)
    requires |body| >= 18
    ensures Narrow(Gather(body[10..14])) == RequestOf(body)
  {
    hide Gather;
    hide Word;
    hide Wide;
    hide Narrow;
    GetIsFromLe32(body[10..14]);
    Narrowing(RequestOf(body));
  }

  lemma Narrowing(w: bv32)
    ensures Narrow(Wide(w)) == w
  {
  }

  lemma DecodedValue(body: seq<bv8>)
    requires Decode(body).Some?
    ensures |body| >= 18
    ensures Decode(body).value == Frame(body[1], SessionOf(body), RequestOf(body), body[14..|body| - 4])
  {
    hide SessionOf;
    hide RequestOf;
    hide CrcMatches;
  }

  /** The checks of mux_feed on a complete body. */
  method Accept(d: MuxDecoderState) returns (ok: bool)
    requires d.Valid()
    ensures ok == (!d.overflow && !d.escaped && Decode(d.data[..d.size]).Some?)
  {
    hide Crc;
    hide Gather;
    hide SessionOf;
    hide CrcMatches;
    hide RequestOf;
    hide Wide;
    var n := d.size;
    ghost var body := d.data[..n];
    if d.overflow || d.escaped || n < 18 || d.data[0] != 1 || d.data[1] < 1 || d.data[1] > 7 {
      return false;
    }
    assert d.data[2..10] == body[2..10] && d.data[n - 4..n] == body[n - 4..] && d.data[..n - 4] == body[..n - 4];
    SessionByGet(body);
    CrcByGet(body);
    var session := Get(d.data, 2, 8);
    if session == 0 {
      return false;
    }
    var crc := ComputeCrc(d.data[..n - 4]);
    var field := Get(d.data, n - 4, 4);
    return Wide(crc) == field;
  }

  /** Copies an accepted body into the caller's frame. */
  method Deliver(d: MuxDecoderState, f: MuxFrame)
    requires d.Valid() && f.Valid() && d.data != f.data
    requires 18 <= d.size
    modifies f, f.data
    ensures f.Valid()
    ensures var body := d.data[..d.size];
            f.Value() == Frame(body[1], SessionOf(body), RequestOf(body), body[14..|body| - 4])
  {
    hide Gather;
    hide SessionOf;
    hide RequestOf;
    hide Narrow;
    ghost var body := d.data[..d.size];
    assert d.data[2..10] == body[2..10] && d.data[10..14] == body[10..14];
    SessionByGet(body);
    RequestByGet(body);
    f.kind := d.data[1];
    f.session := Get(d.data, 2, 8);
    var request := Get(d.data, 10, 4);
    f.request := Narrow(request);
    f.size := d.size - 18;
    ghost var kept := (f.kind, f.session, f.request);
    for i := 0 to f.size
      invariant f.size == d.size - 18 && kept == (f.kind, f.session, f.request)
      invariant d.data[..d.size] == body && f.data[..i] == body[14..14 + i]
    {
      f.data[i] := d.data[14 + i];
    }
  }

  /** mux_feed does to its buffers what one byte does to the host's decoder, and reports the same thing. */
  method MuxFeed(d: MuxDecoderState, byte: bv8, f: MuxFrame) returns (result: int)
    requires d.Valid() && f.Valid() && d.data != f.data
    requires Inv(d.Value())
    modifies d, d.data, f, f.data
    ensures d.Valid() && f.Valid()
    ensures d.Value() == Next(old(d.Value()), byte) && Inv(d.Value())
    ensures result == Code(Signals(old(d.Value()), byte))
    ensures result == 1 ==> Signals(old(d.Value()), byte) == [Got(f.Value())]
    ensures result != 1 ==> f.Value() == old(f.Value())
  {
    hide Decode;
    ghost var before := d.Value();
    NextKeepsInv(before, byte);
    var b := byte;
    if b == 0x7e {
      result := 0;
      if d.inside && (d.size != 0 || d.overflow || d.escaped) {
        result := -1;
        var ok := Accept(d);
        if ok {
          DecodedValue(before.body);
          Deliver(d, f);
          result := 1;
        }
      }
      d.inside := true;
      d.size := 0;
      d.escaped := false;
      d.overflow := false;
      return;
    }
    if !d.inside || (d.size == 0 && !d.escaped && !d.overflow && b != 1) {
      d.inside := false;
      return 2;
    }
    if d.overflow {
      return 0;
    }
    if !d.escaped && b == 0x7d {
      d.escaped := true;
      return 0;
    }
    if d.escaped {
      b := b ^ 0x20;
      d.escaped := false;
    }
    if d.size == MAX_BODY {
      d.overflow := true;
      d.size := 0;
    } else {
      d.data[d.size] := b;
      d.size := d.size + 1;
    }
    return 0;
  }

  // ---------- whole streams ----------

  /** What the device made of a stream, byte by byte. */
  datatype Report = Report(code: int, frame: Option<Frame>, byte: bv8)

  function ReportOf(d: State, b: bv8): Report {
    var s := Signals(d, b);
    Report(Code(s), if s != [] && s[0].Got? then Some(s[0].frame) else None, b)
  }

  /** The signal a report stands for: the byte itself when it is raw. */
  function Meaning(r: Report): seq<Signal> {
    if r.code == 2 then [RawByte(r.byte)]
    else if r.code == 1 && r.frame.Some? then [Got(r.frame.value)]
    else if r.code == -1 then [Bad]
    else []
  }

  function Meanings(reports: seq<Report>): seq<Signal> {
    if reports == [] then [] else Meanings(reports[..|reports| - 1]) + Meaning(reports[|reports| - 1])
  }

  lemma MeaningOfReport(d: State, b: bv8)
    ensures Meaning(ReportOf(d, b)) == Signals(d, b)
  {
    hide Decode;
  }

  /** The two decoders are trace equivalent: on any bytes, in any reads, the device reports what the host would. */
  method FeedAll(d: MuxDecoderState, f: MuxFrame, bytes: seq<bv8>) returns (reports: seq<Report>)
    requires d.Valid() && f.Valid() && d.data != f.data && Inv(d.Value())
    modifies d, d.data, f, f.data
    ensures d.Valid() && f.Valid() && Inv(d.Value())
    ensures d.Value() == Run(old(d.Value()), bytes)
    ensures |reports| == |bytes| && Meanings(reports) == Trace(old(d.Value()), bytes)
  {
    hide Next;
    hide Signals;
    reports := [];
    ghost var start := d.Value();
    for i := 0 to |bytes|
      invariant d.Valid() && f.Valid() && Inv(d.Value())
      invariant d.Value() == Run(start, bytes[..i])
      invariant |reports| == i && Meanings(reports) == Trace(start, bytes[..i])
    {
      assert bytes[..i + 1][..i] == bytes[..i];
      ghost var before := d.Value();
      var code := MuxFeed(d, bytes[i], f);
      var report := Report(code, if code == 1 then Some(f.Value()) else None, bytes[i]);
      MeaningOfReport(before, bytes[i]);
      assert report == ReportOf(before, bytes[i]);
      assert (reports + [report])[..i] == reports;
      reports := reports + [report];
    }
    assert bytes[..|bytes|] == bytes;
  }
}
