/** The compression layer of the MySQL protocol (compress.go) over an abstract codec. */
module Compression {
  import opened Words
  import opened Framing

  datatype Option<T> = None | Some(value: T)

  /** zlib, as far as the protocol knows it: either side may refuse. */
  datatype Codec = Codec(deflate: seq<byte> -> Option<seq<byte>>, inflate: seq<byte> -> Option<seq<byte>>)

  /** Decompressing undoes compressing. */
  ghost predicate Lossless(c: Codec)
  {
    forall x: seq<byte> :: c.deflate(x).Some? ==> c.inflate(c.deflate(x).value) == Some(x)
  }

  const MIN_COMPRESS_LENGTH: int := 150

  const MAX_PAYLOAD: int := MAX - 4

  /** What is sent for one piece, and the uncompressed length its header names: 0 when it is sent
      as it is, because it is short, the codec refuses, or compressing does not pay. */
  function Pack(c: Codec, piece: seq<byte>): (r: (seq<byte>, nat))
  {
    if |piece| < MIN_COMPRESS_LENGTH then (piece, 0)
    else match c.deflate(piece)
      case None => (piece, 0)
      case Some(z) => if 7 + |z| >= |piece| then (piece, 0) else (z, |piece|)
  }

  function CompressedHeader(n: nat, seqno: byte, full: nat): (h: seq<byte>)
    ensures |h| == 7
  {
    PutUint24(n) + [seqno] + PutUint24(full)
  }

  function Piece(data: seq<byte>): (p: seq<byte>)
    ensures |p| <= MAX_PAYLOAD && |p| <= |data| && (data != [] ==> |p| > 0)
  {
    if |data| <= MAX_PAYLOAD then data else data[..MAX_PAYLOAD]
  }

  /** The compressed packets for a stretch of bytes. */
  function CompressedFrames(c: Codec, data: seq<byte>, seqno: byte): seq<byte>
    decreases |data|
  {
    if data == [] then []
    else
      var (body, full) := Pack(c, Piece(data));
      CompressedHeader(|body|, seqno, full) + body + CompressedFrames(c, data[|Piece(data)|..], Next(seqno))
  }

  function CompressedNext(data: seq<byte>, seqno: byte): byte
    decreases |data|
  {
    if data == [] then seqno else CompressedNext(data[|Piece(data)|..], Next(seqno))
  }

  datatype Unpacked = Bytes(data: seq<byte>, rest: seq<byte>, seqno: byte) | Broken

  /** One compressed packet from the front of a stream. */
  function Unpack(c: Codec, stream: seq<byte>): (r: Unpacked)
    ensures r.Bytes? ==> |r.rest| < |stream|
  {
    if |stream| < 7 then Broken
    else
      var n, full := GetUint24(stream[..3]), GetUint24(stream[4..7]);
      if |stream| - 7 < n then Broken
      else
        var body, rest, next := stream[7..7 + n], stream[7 + n..], Next(stream[3]);
        if full == 0 then Bytes(body, rest, next)
        else match c.inflate(body)
          case None => Broken
          case Some(x) => if |x| == full then Bytes(x, rest, next) else Broken
  }

  /** The plain bytes a compressed stream carries, up to where it ends or breaks. */
  function Inflated(c: Codec, stream: seq<byte>): seq<byte>
    decreases |stream|
  {
    match Unpack(c, stream)
    case Broken => []
    case Bytes(data, rest, _) => data + Inflated(c, rest)
  }

  lemma PackFits(c: Codec, piece: seq<byte>)
    requires Lossless(c) && |piece| <= MAX_PAYLOAD
    ensures var (body, full) := Pack(c, piece);
      |body| <= MAX_PAYLOAD && full <= MAX_PAYLOAD
      && (if full == 0 then body == piece else c.inflate(body) == Some(piece) && |piece| == full)
  {
  }

  lemma CompressedHeaderRead(n: nat, seqno: byte, full: nat, body: seq<byte>, more: seq<byte>)
    requires n <= MAX && full <= MAX && |body| == n
    ensures var s := CompressedHeader(n, seqno, full) + body + more;
      |s| >= 7 + n && GetUint24(s[..3]) == n && s[3] == seqno && GetUint24(s[4..7]) == full && s[7..7 + n] == body && s[7 + n..] == more
  {
    hide PutUint24, GetUint24;
    var s := CompressedHeader(n, seqno, full) + body + more;
    var a, b := PutUint24(n), PutUint24(full);
    Uint24RoundTrip(n, a);
    Uint24RoundTrip(full, b);
    assert s == a + ([seqno] + b + body + more);
    assert s[..3] == a && s[3] == seqno;
    assert s == a + [seqno] + (b + (body + more));
    assert s[4..] == b + (body + more);
    assert s[4..7] == b by { assert s[4..][..3] == b; }
    assert s == CompressedHeader(n, seqno, full) + (body + more);
    assert s[7..] == body + more;
    assert s[7..7 + n] == body by { assert s[7..][..n] == body; }
    assert s[7 + n..] == more by { assert s[7..][n..] == more; }
  }

  lemma UnpackPacked(c: Codec, piece: seq<byte>, seqno: byte, more: seq<byte>)
    requires Lossless(c) && |piece| <= MAX_PAYLOAD
    ensures var (body, full) := Pack(c, piece);
      Unpack(c, CompressedHeader(|body|, seqno, full) + body + more) == Bytes(piece, more, Next(seqno))
  {
    hide PutUint24, GetUint24, CompressedHeader, Lossless;
    PackFits(c, piece);
    var (body, full) := Pack(c, piece);
    hide Pack;
    CompressedHeaderRead(|body|, seqno, full, body, more);
  }

  /** Inflating what was deflated gives the bytes back, then whatever follows. */
  lemma {:induction false} InflatedFrames(c: Codec, data: seq<byte>, seqno: byte, rest: seq<byte>)
    requires Lossless(c)
    ensures Inflated(c, CompressedFrames(c, data, seqno) + rest) == data + Inflated(c, rest)
    decreases |data|
  {
    hide PutUint24, GetUint24, CompressedHeader, Lossless, Unpack, Pack;
    if data == [] {
      assert CompressedFrames(c, data, seqno) + rest == rest;
      assert data + Inflated(c, rest) == Inflated(c, rest);
    } else {
      var piece := Piece(data);
      var tail := data[|piece|..];
      var (body, full) := Pack(c, piece);
      var more := CompressedFrames(c, tail, Next(seqno)) + rest;
      assert CompressedFrames(c, data, seqno) + rest == CompressedHeader(|body|, seqno, full) + body + more;
      UnpackPacked(c, piece, seqno, more);
      InflatedFrames(c, tail, Next(seqno), rest);
      assert piece + (tail + Inflated(c, rest)) == data + Inflated(c, rest) by { assert piece + tail == data; }
    }
  }

  // --------------------------------------------------------- the layout

  /** What a packet begins with: length on the wire, number, and length after inflating. */
  predicate BeginsPacket(stream: seq<byte>, n: nat, seqno: byte, full: nat)
  {
    |stream| >= 7 && LittleEndian(stream[..3]) == n && stream[3] == seqno && LittleEndian(stream[4..7]) == full
  }

  lemma CompressedHeaderBegins(n: nat, seqno: byte, full: nat, more: seq<byte>)
    requires n <= 0xFFFFFF && full <= 0xFFFFFF
    ensures BeginsPacket(CompressedHeader(n, seqno, full) + more, n, seqno, full)
    ensures (CompressedHeader(n, seqno, full) + more)[7..] == more
  {
    hide PutUint24;
    var s := CompressedHeader(n, seqno, full) + more;
    Uint24IsLittleEndian(n, PutUint24(n));
    Uint24IsLittleEndian(full, PutUint24(full));
    assert s[..3] == PutUint24(n) && s[4..7] == PutUint24(full);
  }

  /** The first packet of any nonempty stretch of bytes: its piece is all of it, or 2^24-5 bytes. From
      150 bytes on, a piece that deflates by more than 7 bytes goes out deflated, with its own length
      in the last three header bytes; every other piece goes out as it is, with 0 there. */
  lemma FirstPacket(c: Codec, data: seq<byte>, seqno: byte)
    requires Lossless(c) && data != []
    ensures var piece := if |data| <= 0xFFFFFB then data else data[..0xFFFFFB];
      var z := c.deflate(piece);
      var pays := |piece| >= 150 && z.Some? && 7 + |z.value| < |piece|;
      var body := if pays then z.value else piece;
      var s := CompressedFrames(c, data, seqno);
      BeginsPacket(s, |body|, seqno, if pays then |piece| else 0) && body <= s[7..]
      && s[7 + |body|..] == CompressedFrames(c, data[|piece|..], Next(seqno))
  {
    hide CompressedHeader, BeginsPacket, Lossless;
    var piece := Piece(data);
    var (body, full) := Pack(c, piece);
    var more := CompressedFrames(c, data[|piece|..], Next(seqno));
    PackFits(c, piece);
    hide Pack;
    assert CompressedFrames(c, data, seqno) == CompressedHeader(|body|, seqno, full) + (body + more);
    CompressedHeaderBegins(|body|, seqno, full, body + more);
    var s := CompressedFrames(c, data, seqno);
    assert s[7..] == body + more && s[7..][|body|..] == more && s[7 + |body|..] == s[7..][|body|..];
  }
}
