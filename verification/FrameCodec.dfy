/**
 The wire codec of the decision socket (go/pfb_dns_gateway/decider.go): a frame is
 u32 length, u8 type, u32 id and the payload, all integers big-endian.

 `Encode` and `Decode` say what one frame looks like; `WriteFrame` and `ReadFrame` are the
 buffer-filling methods, proved against them.
 */
module FrameCodec {
  import opened Common

  const QUERY: Byte := 1
  const FORWARD: Byte := 2
  const REPLY: Byte := 3
  const ANSWER: Byte := 4
  const DROP: Byte := 5
  const READY: Byte := 6

  const MAX_FRAME_LEN: nat := 5 + 1 + 1 + 255 + 65535
  const MAX_WIRE: nat := 65535
  const TWO_32: nat := 0x1_0000_0000

  type U32 = x: int | 0 <= x < 0x1_0000_0000

  datatype Frame = Frame(typ: Byte, id: U32, payload: Bytes)

  datatype FrameError = Eof | UnexpectedEof | BadLength | UnknownType

  datatype Decoded = Got(frame: Frame, rest: Bytes) | Failed(error: FrameError)

  // ----- big-endian numbers -----

  function PutU32(v: U32): (b: Bytes)
    ensures |b| == 4
  {
    [v / 0x100_0000, v / 0x1_0000 % 256, v / 0x100 % 256, v % 256]
  }

  function GetU32(b: Bytes): U32
    requires |b| == 4
  {
    var b0: int, b1: int, b2: int, b3: int := b[0], b[1], b[2], b[3];
    b0 * 0x100_0000 + b1 * 0x1_0000 + b2 * 0x100 + b3
  }

  lemma U32RoundTrip(v: U32)
    ensures GetU32(PutU32(v)) == v
  {
    assert v / 0x1_0000 == v / 0x100_0000 * 256 + v / 0x1_0000 % 256;
    assert v / 0x100 == v / 0x1_0000 * 256 + v / 0x100 % 256;
  }

  lemma ByteDigits(b0: int, b1: int, b2: int, b3: int)
    requires 0 <= b0 < 256 && 0 <= b1 < 256 && 0 <= b2 < 256 && 0 <= b3 < 256
    ensures var v := b0 * 0x100_0000 + b1 * 0x1_0000 + b2 * 0x100 + b3;
            v / 0x100_0000 == b0 && v / 0x1_0000 % 256 == b1 && v / 0x100 % 256 == b2 && v % 256 == b3
  {
    var v := b0 * 0x100_0000 + b1 * 0x1_0000 + b2 * 0x100 + b3;
    assert v / 0x100 == b0 * 0x1_0000 + b1 * 0x100 + b2;
    assert v / 0x1_0000 == b0 * 0x100 + b1;
    assert v / 0x100_0000 == b0;
  }

  lemma U32BytesRoundTrip(b: Bytes)
    requires |b| == 4
    ensures PutU32(GetU32(b)) == b
  {
    ByteDigits(b[0], b[1], b[2], b[3]);
  }

  // ----- one frame -----

  /** The bytes `writeFrame` sends. The length field is a conversion to uint32, so it wraps. */
  function Encode(f: Frame): (b: Bytes)
    ensures |b| == 9 + |f.payload|
  {
    PutU32((5 + |f.payload|) % TWO_32) + [f.typ] + PutU32(f.id) + f.payload
  }

  /** A frame the reader accepts: a known type and a length field within the limit. */
  predicate Valid(f: Frame) {
    QUERY <= f.typ <= READY && 5 + |f.payload| <= MAX_FRAME_LEN
  }

  /** What `readFrame` makes of the bytes up to the end of the stream. */
  function Decode(s: Bytes): Decoded {
    if |s| < 4 then Failed(if s == [] then Eof else UnexpectedEof)
    else
      var n := GetU32(s[..4]);
      if n < 5 || n > MAX_FRAME_LEN then Failed(BadLength)
      else if |s| < 9 then Failed(UnexpectedEof)
      else if s[4] < QUERY || s[4] > READY then Failed(UnknownType)
      else if |s| < 4 + n then Failed(UnexpectedEof)
      else Got(Frame(s[4], GetU32(s[5..9]), s[9..4 + n]), s[4 + n..])
  }

  lemma EncodeShape(f: Frame)
    ensures Encode(f)[..4] == PutU32((5 + |f.payload|) % TWO_32)
    ensures Encode(f)[4] == f.typ
    ensures Encode(f)[5..9] == PutU32(f.id)
    ensures Encode(f)[9..] == f.payload
  {
  }

  /** A number in big-endian order, the first byte the most significant. */
  function Big(a: int, b: int, c: int, d: int): int {
    ((a * 256 + b) * 256 + c) * 256 + d
  }

  lemma BigIs(v: U32)
    ensures var b := PutU32(v); Big(b[0], b[1], b[2], b[3]) == v
  {
    U32RoundTrip(v);
  }

  /** The layout on the wire: a length of 5 and the payload, at most 65797, then the type, the id and the payload. */
  lemma FrameLayout(f: Frame)
    requires Valid(f)
    ensures var b := Encode(f);
            && |b| == 9 + |f.payload| && Big(b[0], b[1], b[2], b[3]) == 5 + |f.payload|
            && b[4] == f.typ && Big(b[5], b[6], b[7], b[8]) == f.id && b[9..] == f.payload
    ensures 1 <= f.typ <= 6 && 5 + |f.payload| <= 65797
  {
    hide PutU32;
    EncodeShape(f);
    var b := Encode(f);
    BigIs(5 + |f.payload|);
    BigIs(f.id);
    assert b[..4] == [b[0], b[1], b[2], b[3]] && b[5..9] == [b[5], b[6], b[7], b[8]];
  }

  /**
   What the reader refuses and why: a length out of bounds before anything else is read, then an unknown type once the
   header is there, then an end inside the frame.
   */
  lemma ReaderRefuses(s: Bytes)
    requires |s| >= 4
    ensures var n := Big(s[0], s[1], s[2], s[3]);
            && (Decode(s) == Failed(BadLength) <==> n < 5 || n > 65797)
            && (Decode(s) == Failed(UnknownType) <==> 5 <= n <= 65797 && |s| >= 9 && (s[4] == 0 || s[4] > 6))
            && (Decode(s) == Failed(UnexpectedEof) <==>
                  5 <= n <= 65797 && (|s| < 9 || (1 <= s[4] <= 6 && |s| < 4 + n)))
            && Decode(s) != Failed(Eof)
  {
    assert s[..4] == [s[0], s[1], s[2], s[3]];
  }

  lemma DecodeParts(s: Bytes, len: Bytes, id: Bytes, f: Frame, rest: Bytes)
    requires Valid(f) && |len| == 4 && |id| == 4
    requires GetU32(len) == 5 + |f.payload| && GetU32(id) == f.id
    requires s == len + [f.typ] + id + f.payload + rest
    ensures Decode(s) == Got(f, rest)
  {
    hide PutU32, GetU32, Encode;
    var n := 5 + |f.payload|;
    assert s[..4] == len;
    assert s[5..9] == id;
    assert s[9..4 + n] == f.payload;
    assert s[4 + n..] == rest;
  }

  /** A valid frame reads back unchanged, whatever follows it on the stream. */
  lemma FrameRoundTrip(f: Frame, rest: Bytes)
    requires Valid(f)
    ensures Decode(Encode(f) + rest) == Got(f, rest)
  {
    hide PutU32, GetU32, Encode, Decode;
    var n := 5 + |f.payload|;
    U32RoundTrip(n);
    U32RoundTrip(f.id);
    EncodeParts(f, PutU32(n), PutU32(f.id));
    DecodeParts(Encode(f) + rest, PutU32(n), PutU32(f.id), f, rest);
  }

  lemma LengthField(b: Bytes)
    requires |b| == 4
    ensures PutU32(GetU32(b) % TWO_32) == b
  {
    hide PutU32, GetU32;
    U32BytesRoundTrip(b);
  }

  lemma FiveParts(s: Bytes, n: nat)
    requires 5 <= n && 4 + n <= |s|
    ensures s == s[..4] + [s[4]] + s[5..9] + s[9..4 + n] + s[4 + n..]
  {
  }

  lemma EncodeParts(f: Frame, len: Bytes, id: Bytes)
    requires PutU32((5 + |f.payload|) % TWO_32) == len && PutU32(f.id) == id
    ensures Encode(f) == len + [f.typ] + id + f.payload
  {
  }

  /** The reader accepts nothing but encodings: every accepted frame re-encodes to the bytes it took. */
  lemma AcceptedIsEncoded(s: Bytes)
    requires Decode(s).Got?
    ensures Valid(Decode(s).frame)
    ensures s == Encode(Decode(s).frame) + Decode(s).rest
  {
    var f, n := Decode(s).frame, GetU32(s[..4]);
    LengthField(s[..4]);
    U32BytesRoundTrip(s[5..9]);
    FiveParts(s, n);
    EncodeParts(f, s[..4], s[5..9]);
  }

  lemma DecodePart(s: Bytes, n: nat)
    requires 0 < |s| < 4 + n && 5 <= n <= MAX_FRAME_LEN
    requires |s| >= 4 ==> GetU32(s[..4]) == n
    requires |s| > 4 ==> QUERY <= s[4] <= READY
    ensures Decode(s) == Failed(UnexpectedEof)
  {
  }

  /** A proper, non-empty part of a frame is an unexpected end of file. */
  lemma CutFrame(f: Frame, k: nat)
    requires Valid(f) && 0 < k < |Encode(f)|
    ensures Decode(Encode(f)[..k]) == Failed(UnexpectedEof)
  {
    hide PutU32, GetU32, Decode;
    var e, n := Encode(f), 5 + |f.payload|;
    EncodeShape(f);
    U32RoundTrip(n);
    CutPart(e, k);
    DecodePart(e[..k], n);
  }

  lemma CutPart(e: Bytes, k: nat)
    requires k <= |e|
    ensures k >= 4 ==> e[..k][..4] == e[..4]
  {
  }

  // ----- the stream -----

  function EncodeAll(fs: seq<Frame>): Bytes {
    if fs == [] then [] else Encode(fs[0]) + EncodeAll(fs[1..])
  }

  datatype Stream = Stream(frames: seq<Frame>, end: FrameError)

  /** Reading until the first error, as the reader goroutine does. */
  function DecodeAll(s: Bytes): Stream
    decreases |s|
  {
    match Decode(s)
    case Failed(e) => Stream([], e)
    case Got(f, rest) =>
      var tail := DecodeAll(rest);
      Stream([f] + tail.frames, tail.end)
  }

  /** How many whole frames the first k bytes hold. */
  function WholeFrames(fs: seq<Frame>, k: nat): (m: nat)
    ensures m <= |fs|
  {
    if fs == [] || k < |Encode(fs[0])| then 0 else 1 + WholeFrames(fs[1..], k - |Encode(fs[0])|)
  }

  lemma DecodeFirst(f: Frame, s: Bytes)
    requires Valid(f)
    ensures DecodeAll(Encode(f) + s) == Stream([f] + DecodeAll(s).frames, DecodeAll(s).end)
  {
    FrameRoundTrip(f, s);
  }

  lemma DecodeNothing(s: Bytes)
    requires Decode(s).Failed?
    ensures DecodeAll(s) == Stream([], Decode(s).error)
  {
  }

  /** The stream a cut after k bytes leaves to the reader. */
  function WholePart(fs: seq<Frame>, k: nat): Stream {
    var m := WholeFrames(fs, k);
    Stream(fs[..m], if |EncodeAll(fs[..m])| == k then Eof else UnexpectedEof)
  }

  lemma WholePartStep(fs: seq<Frame>, k: nat)
    requires fs != [] && |Encode(fs[0])| <= k
    ensures var tail := WholePart(fs[1..], k - |Encode(fs[0])|);
            WholePart(fs, k) == Stream([fs[0]] + tail.frames, tail.end)
  {
    var m := WholeFrames(fs[1..], k - |Encode(fs[0])|);
    assert fs[..m + 1] == [fs[0]] + fs[1..][..m];
    assert fs[..m + 1][1..] == fs[1..][..m];
  }

  /**
   A stream of valid frames cut after any k bytes: the reader gets exactly the whole frames, then
   EOF when the cut is a frame boundary and an unexpected EOF anywhere inside a frame.
   With k the whole length this is the back-to-back round trip.
   */
  lemma {:induction false} CutStream(fs: seq<Frame>, k: nat)
    requires forall f <- fs :: Valid(f)
    requires k <= |EncodeAll(fs)|
    ensures DecodeAll(EncodeAll(fs)[..k]) == WholePart(fs, k)
    decreases |fs|
  {
    var all := EncodeAll(fs);
    if k == 0 {
      assert all[..k] == [];
      DecodeNothing([]);
      assert WholeFrames(fs, k) == 0;
    } else {
      var f, n := fs[0], |Encode(fs[0])|;
      if k < n {
        CutFrame(f, k);
        assert all[..k] == Encode(f)[..k];
        DecodeNothing(all[..k]);
        assert WholeFrames(fs, k) == 0;
      } else {
        var tail := EncodeAll(fs[1..])[..k - n];
        assert all[..k] == Encode(f) + tail;
        DecodeFirst(f, tail);
        CutStream(fs[1..], k - n);
        WholePartStep(fs, k);
      }
    }
  }

  lemma {:induction false} WholeFramesOfAll(fs: seq<Frame>)
    ensures WholeFrames(fs, |EncodeAll(fs)|) == |fs|
  {
    if fs != [] {
      WholeFramesOfAll(fs[1..]);
    }
  }

  /** Any sequence of valid frames written back to back reads back unchanged, then a clean EOF. */
  lemma StreamRoundTrip(fs: seq<Frame>)
    requires forall f <- fs :: Valid(f)
    ensures DecodeAll(EncodeAll(fs)) == Stream(fs, Eof)
  {
    var all := EncodeAll(fs);
    WholeFramesOfAll(fs);
    CutStream(fs, |all|);
    assert all[..|all|] == all;
    assert fs[..|fs|] == fs;
  }

  // ----- the QUERY payload -----

  /** `Decide` sends the transport byte, byte(len(ip)) (a conversion that wraps), the IP text and the wire. */
  function QueryPayload(transport: Byte, ip: Bytes, wire: Bytes): Bytes {
    [transport, |ip| % 256] + ip + wire
  }

  datatype QueryParts = QueryParts(transport: Byte, ip: Bytes, wire: Bytes)

  /** The receiver's reading of a QUERY payload, by the documented layout. */
  function SplitQuery(p: Bytes): Option<QueryParts> {
    if |p| < 2 then None
    else
      var end: int := p[1] as int + 2;
      if |p| < end then None else Some(QueryParts(p[0], p[2..end], p[end..]))
  }

  /**
   A QUERY splits back into what was put in exactly when its IP text has at most 255 bytes, and then
   every wire of at most 65535 bytes fits the frame limit.
   */
  lemma QueryRoundTrip(transport: Byte, ip: Bytes, wire: Bytes)
    ensures |ip| <= 255 <==> SplitQuery(QueryPayload(transport, ip, wire)) == Some(QueryParts(transport, ip, wire))
    ensures |ip| <= 255 ==> QueryPayload(transport, ip, wire) == [transport, |ip|] + ip + wire
    ensures |ip| <= 255 && |wire| <= 65535 ==> Valid(Frame(QUERY, 0, QueryPayload(transport, ip, wire)))
  {
    var p := QueryPayload(transport, ip, wire);
    var end: int := p[1] as int + 2;
    if |ip| <= 255 {
      assert p[2..end] == ip;
      assert p[end..] == wire;
    } else {
      assert |p[2..end]| < |ip|;
    }
  }

  // ----- the methods that fill the buffers -----

  /** The write half of the connection: it takes `room` more bytes before it breaks. */
  class Sink {
    var sent: Bytes
    var room: nat

    /** A write the connection cannot take whole sends its first bytes and fails. */
    method Write(buf: array<Byte>) returns (ok: bool)
      modifies this
      ensures ok <==> buf.Length <= old(room)
      ensures ok ==> sent == old(sent) + buf[..] && room == old(room) - buf.Length
      ensures !ok ==> sent == old(sent) + buf[..old(room)] && room == 0
    {
      ok := buf.Length <= room;
      var n := if ok then buf.Length else room;
      sent, room := sent + buf[..n], room - n;
      assert buf[..buf.Length] == buf[..];
    }
  }

  method PutUint32(buf: array<Byte>, at: nat, v: U32)
    requires at + 4 <= buf.Length
    modifies buf
    ensures buf[..] == old(buf[..at]) + PutU32(v) + old(buf[at + 4..])
  {
    buf[at], buf[at + 1], buf[at + 2], buf[at + 3] := v / 0x100_0000, v / 0x1_0000 % 256, v / 0x100 % 256, v % 256;
  }

  /** One Write per frame, so concurrent callers cannot interleave bytes. */
  method WriteFrame(w: Sink, typ: Byte, id: U32, payload: Bytes) returns (ok: bool)
    modifies w
    ensures var e := Encode(Frame(typ, id, payload));
            && (ok <==> |e| <= old(w.room))
            && (ok ==> w.sent == old(w.sent) + e && w.room == old(w.room) - |e|)
            && (!ok ==> w.sent == old(w.sent) + e[..old(w.room)] && w.room == 0)
  {
    hide PutU32, GetU32;
    var buf := new Byte[9 + |payload|](_ => 0);
    PutUint32(buf, 0, (5 + |payload|) % TWO_32);
    buf[4] := typ;
    assert buf[..5] == PutU32((5 + |payload|) % TWO_32) + [typ];
    PutUint32(buf, 5, id);
    assert buf[..9] == PutU32((5 + |payload|) % TWO_32) + [typ] + PutU32(id);
    forall i | 0 <= i < |payload| {
      buf[9 + i] := payload[i];
    }
    assert buf[..] == Encode(Frame(typ, id, payload));
    ok := w.Write(buf);
  }

  /** The read half of the connection: the bytes still to come before its end. */
  class Source {
    var rest: Bytes

    /** io.ReadFull into buf[lo..hi]: EOF when nothing could be read, an unexpected EOF after a part. */
    method ReadFull(buf: array<Byte>, lo: nat, hi: nat) returns (error: Option<FrameError>)
      requires lo <= hi <= buf.Length
      modifies this, buf
      ensures error.None? <==> |old(rest)| >= hi - lo
      ensures error.None? ==> rest == old(rest)[hi - lo..]
      ensures error.None? ==> buf[..] == old(buf[..lo]) + old(rest)[..hi - lo] + old(buf[hi..])
      ensures error.Some? ==> error.value == if old(rest) == [] then Eof else UnexpectedEof
    {
      var n := hi - lo;
      if |rest| < n {
        error := Some(if rest == [] then Eof else UnexpectedEof);
        rest := [];
      } else {
        error := None;
        forall i | 0 <= i < n {
          buf[lo + i] := rest[i];
        }
        rest := rest[n..];
      }
    }
  }

  function Unexpected(e: FrameError): FrameError {
    if e == Eof then UnexpectedEof else e
  }

  datatype ReadResult = FrameRead(frame: Frame) | ReadError(error: FrameError)

  lemma HeadParts(s: Bytes, head: Bytes)
    requires |s| >= 9 && head == s[..4] + s[4..][..5]
    ensures head[4] == s[4] && head[5..9] == s[5..9]
  {
  }

  /** The length is checked before any payload is read, and the type before the payload. */
  method ReadFrame(r: Source) returns (result: ReadResult)
    modifies r
    ensures match Decode(old(r.rest))
            case Got(f, rest) => result == FrameRead(f) && r.rest == rest
            case Failed(e) => result == ReadError(e)
  {
    hide PutU32, GetU32, Encode;
    ghost var s := r.rest;
    var head := new Byte[9](_ => 0);
    var err := r.ReadFull(head, 0, 4);
    if err.Some? {
      return ReadError(err.value);
    }
    assert head[..4] == s[..4];
    var n := GetU32(head[..4]);
    if n < 5 || n > MAX_FRAME_LEN {
      return ReadError(BadLength);
    }
    err := r.ReadFull(head, 4, 9);
    if err.Some? {
      return ReadError(Unexpected(err.value));
    }
    HeadParts(s, head[..]);
    assert head[5..9] == head[..][5..9];
    var typ, id := head[4], GetU32(head[5..9]);
    if typ < QUERY || typ > READY {
      return ReadError(UnknownType);
    }
    var payload := new Byte[n - 5](_ => 0);
    assert r.rest == s[9..];
    err := r.ReadFull(payload, 0, n - 5);
    if err.Some? {
      return ReadError(Unexpected(err.value));
    }
    assert payload[..] == s[9..4 + n];
    result := FrameRead(Frame(typ, id, payload[..]));
  }
}
