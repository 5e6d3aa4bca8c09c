/**
 The serial framing of src/mux.rs: frame bodies, octet stuffing (section 4.2 of RFC 1662) and the
 meaning of a body.
 */
module Mux {
  import opened Crc32
  import CrcBurst

  const MAX_PAYLOAD := 1024
  const MAX_BODY := 14 + MAX_PAYLOAD + 4
  const FLAG: bv8 := 0x7e
  const ESCAPE: bv8 := 0x7d
  const HELLO: bv8 := 1
  const HELLO_ACK: bv8 := 2
  const CONSOLE: bv8 := 3
  const REQUEST: bv8 := 4
  const RESPONSE: bv8 := 5
  const EVENT: bv8 := 6
  const ERROR: bv8 := 7

  datatype Option<+T> = None | Some(value: T)

  datatype Frame = Frame(kind: bv8, session: bv64, request: bv32, payload: seq<bv8>)

  datatype EncodeError = PayloadTooLong | InvalidKind | ZeroSession

  datatype Encoded = Ok(wire: seq<bv8>) | Err(error: EncodeError)

  function Le64(w: bv64): (r: seq<bv8>)
    ensures |r| == 8
  {
    [(w & 0xff) as bv8, ((w >> 8) & 0xff) as bv8, ((w >> 16) & 0xff) as bv8, ((w >> 24) & 0xff) as bv8,
     ((w >> 32) & 0xff) as bv8, ((w >> 40) & 0xff) as bv8, ((w >> 48) & 0xff) as bv8, ((w >> 56) & 0xff) as bv8]
  }

  function Or(a: bv64, b: bv64): bv64 {
    a | b
  }

  function FromLe64(s: seq<bv8>): bv64
    requires |s| == 8
  {
    Or(Or(Or(Or(Or(Or(Or(s[0] as bv64, (s[1] as bv64) << 8), (s[2] as bv64) << 16), (s[3] as bv64) << 24),
      (s[4] as bv64) << 32), (s[5] as bv64) << 40), (s[6] as bv64) << 48), (s[7] as bv64) << 56)
  }

  lemma LittleEndian64(w: bv64)
    ensures FromLe64(Le64(w)) == w
  {
  }

  lemma LowBytes64(a: bv8, b: bv8, c: bv8, d: bv8, e: bv8, f: bv8, g: bv8, h: bv8)
    ensures var w := FromLe64([a, b, c, d, e, f, g, h]);
            && (w & 0xff) as bv8 == a && ((w >> 8) & 0xff) as bv8 == b
            && ((w >> 16) & 0xff) as bv8 == c && ((w >> 24) & 0xff) as bv8 == d
  {
  }

  lemma HighBytes64(a: bv8, b: bv8, c: bv8, d: bv8, e: bv8, f: bv8, g: bv8, h: bv8)
    ensures var w := FromLe64([a, b, c, d, e, f, g, h]);
            && ((w >> 32) & 0xff) as bv8 == e && ((w >> 40) & 0xff) as bv8 == f
            && ((w >> 48) & 0xff) as bv8 == g && ((w >> 56) & 0xff) as bv8 == h
  {
  }

  lemma Le64Bytes(s: seq<bv8>)
    requires |s| == 8
    ensures Le64(FromLe64(s)) == s
  {
    hide FromLe64;
    assert s == [s[0], s[1], s[2], s[3], s[4], s[5], s[6], s[7]];
    LowBytes64(s[0], s[1], s[2], s[3], s[4], s[5], s[6], s[7]);
    HighBytes64(s[0], s[1], s[2], s[3], s[4], s[5], s[6], s[7]);
  }

  predicate ValidKind(kind: bv8) {
    HELLO <= kind <= ERROR
  }

  predicate Encodable(f: Frame) {
    |f.payload| <= MAX_PAYLOAD && ValidKind(f.kind) && f.session != 0
  }

  /** The part of the body that the CRC covers. */
  function Header(f: Frame): (r: seq<bv8>)
    ensures |r| == 14 + |f.payload|
  {
    [1, f.kind] + Le64(f.session) + Le32(f.request) + f.payload
  }

  function Body(f: Frame): (r: seq<bv8>)
    ensures |r| == 18 + |f.payload|
  {
    Header(f) + Le32(Crc(Header(f)))
  }

  predicate NeedsEscape(b: bv8) {
    b == FLAG || b == ESCAPE
  }

  function StuffByte(b: bv8): seq<bv8> {
    if NeedsEscape(b) then [ESCAPE, b ^ 0x20] else [b]
  }

  function Stuff(s: seq<bv8>): seq<bv8> {
    if s == [] then [] else Stuff(s[..|s| - 1]) + StuffByte(s[|s| - 1])
  }

  function Wire(f: Frame): seq<bv8> {
    [FLAG] + Stuff(Body(f)) + [FLAG]
  }

  predicate CrcMatches(body: seq<bv8>)
    requires |body| >= 18
  {
    Crc(body[..|body| - 4]) == FromLe32(body[|body| - 4..])
  }

  function SessionOf(body: seq<bv8>): bv64
    requires |body| >= 18
  {
    FromLe64(body[2..10])
  }

  function RequestOf(body: seq<bv8>): bv32
    requires |body| >= 18
  {
    FromLe32(body[10..14])
  }

  /** Frame::decode. */
  function Decode(body: seq<bv8>): Option<Frame> {
    if |body| < 18 || body[0] != 1 || !ValidKind(body[1]) then None
    else if !CrcMatches(body) then None
    else if SessionOf(body) == 0 then None
    else Some(Frame(body[1], SessionOf(body), RequestOf(body), body[14..|body| - 4]))
  }

  /** Frame::encode. */
  method Encode(f: Frame) returns (r: Encoded)
    ensures r.Ok? <==> Encodable(f)
    ensures r.Ok? ==> r.wire == Wire(f)
    ensures r.Err? ==> r.error == if |f.payload| > MAX_PAYLOAD then PayloadTooLong
                                  else if !ValidKind(f.kind) then InvalidKind
                                  else ZeroSession
  {
    if |f.payload| > MAX_PAYLOAD {
      return Err(PayloadTooLong);
    }
    if !(HELLO <= f.kind <= ERROR) {
      return Err(InvalidKind);
    }
    if f.session == 0 {
      return Err(ZeroSession);
    }
    hide Crc;
    hide Le32;
    hide Le64;
    var body := [1, f.kind];
    body := body + Le64(f.session);
    body := body + Le32(f.request);
    body := body + f.payload;
    assert body == Header(f);
    var crc := ComputeCrc(body);
    body := body + Le32(crc);
    var stuffed := StuffBody(body);
    return Ok([0x7e] + stuffed + [0x7e]);
  }

  method StuffBody(body: seq<bv8>) returns (wire: seq<bv8>)
    ensures wire == Stuff(body)
  {
    wire := [];
    for i := 0 to |body|
      invariant wire == Stuff(body[..i])
    {
      assert body[..i + 1][..i] == body[..i];
      var b := body[i];
      if b == 0x7e || b == 0x7d {
        wire := wire + [0x7d, b ^ 0x20];
      } else {
        wire := wire + [b];
      }
    }
    assert body[..|body|] == body;
  }

  // ---------- bodies and frames correspond one to one ----------

  lemma HeaderFields(f: Frame, tail: seq<bv8>)
    ensures var b := Header(f) + tail;
            && b[0] == 1 && b[1] == f.kind && b[2..10] == Le64(f.session)
            && b[10..14] == Le32(f.request) && b[14..14 + |f.payload|] == f.payload
  {
    hide Le32;
    hide Le64;
  }

  lemma DecodeBody(f: Frame)
    requires ValidKind(f.kind) && f.session != 0
    ensures Decode(Body(f)) == Some(f)
  {
    hide Crc;
    hide Le32;
    hide Le64;
    hide FromLe32;
    hide FromLe64;
    var crc := Le32(Crc(Header(f)));
    HeaderFields(f, crc);
    assert Body(f)[..14 + |f.payload|] == Header(f);
    assert Body(f)[14 + |f.payload|..] == crc;
    LittleEndian(Crc(Header(f)));
    LittleEndian(f.request);
    LittleEndian64(f.session);
  }

  lemma Le32Bytes(s: seq<bv8>)
    requires |s| == 4
    ensures Le32(FromLe32(s)) == s
  {
    WordBytes(s[0], s[1], s[2], s[3]);
    assert s == [s[0], s[1], s[2], s[3]];
  }

  lemma DecodedBody(body: seq<bv8>, f: Frame)
    requires Decode(body) == Some(f)
    ensures body == Body(f) && ValidKind(f.kind) && f.session != 0
  {
    hide Crc;
    hide Le32;
    hide Le64;
    hide FromLe32;
    hide FromLe64;
    var end := |body| - 4;
    Le32Bytes(body[end..]);
    Le32Bytes(body[10..14]);
    Le64Bytes(body[2..10]);
    assert body[..end] == Header(f);
    assert body == body[..end] + body[end..];
  }

  /** Decode accepts exactly the bodies that encode a frame, and returns that frame. */
  lemma DecodeIffBody(body: seq<bv8>, f: Frame)
    ensures Decode(body) == Some(f) <==> body == Body(f) && ValidKind(f.kind) && f.session != 0
  {
    if Decode(body) == Some(f) {
      DecodedBody(body, f);
    }
    if body == Body(f) && ValidKind(f.kind) && f.session != 0 {
      DecodeBody(f);
    }
  }

  /** Any damage within four consecutive bytes of an acceptable body is noticed. */
  lemma BurstRejected(body: seq<bv8>, damaged: seq<bv8>, i: nat)
    requires Decode(body).Some?
    requires CrcBurst.DifferWithin(body, damaged, i) && damaged != body
    ensures Decode(damaged) == None
  {
    hide Register;
    hide FromLe32;
    hide FromLe64;
    if Decode(damaged).Some? {
      var end := |body| - 4;
      assert body == body[..end] + body[end..] && damaged == damaged[..end] + damaged[end..];
      CrcBurst.ResidueAccepts(body[..end], body[end..]);
      CrcBurst.ResidueAccepts(damaged[..end], damaged[end..]);
      CrcBurst.BurstChangesRegister(PRESET, body, damaged, i);
      assert false;
    }
  }
}
