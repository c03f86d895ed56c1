/** Reading and writing packets on a MySQL connection (packets.go, compress.go, connection.go).

    The network is the source of the incoming bytes and an account of the bytes it has accepted,
    with a number of bytes it will still accept before writes fail. */
module Connection {
  import opened Modular
  import opened Words
  import opened Framing
  import opened Compression
  import opened ReadBuffer

  // ---------------------------------------------- what goes over the wire

  /** The compressed form of a payload's frames: each frame is compressed on its own. */
  function CompressedWire(c: Codec, payload: seq<byte>, seqno: byte, cseq: byte): seq<byte>
    decreases |payload|
  {
    if |payload| < MAX then CompressedFrames(c, Header(|payload|, seqno) + payload, cseq)
    else
      var frame := Header(MAX, seqno) + payload[..MAX];
      CompressedFrames(c, frame, cseq) + CompressedWire(c, payload[MAX..], Next(seqno), CompressedNext(frame, cseq))
  }

  function CompressedLast(payload: seq<byte>, seqno: byte, cseq: byte): byte
    decreases |payload|
  {
    if |payload| < MAX then CompressedNext(Header(|payload|, seqno) + payload, cseq)
    else CompressedLast(payload[MAX..], Next(seqno), CompressedNext(Header(MAX, seqno) + payload[..MAX], cseq))
  }

  /** The bytes of a payload on the network. */
  function Wire(compress: bool, c: Codec, payload: seq<byte>, seqno: byte, cseq: byte): seq<byte>
  {
    if compress then CompressedWire(c, payload, seqno, cseq) else Frames(payload, seqno)
  }

  /** What was appended begins with a length and a number. */
  predicate BeginsBehind(was: seq<byte>, now: seq<byte>, n: nat, seqno: byte)
  {
    |now| > |was| && Begins(now[|was|..], n, seqno)
  }

  /** Without compression those are the length of the first frame and its number. */
  lemma WireBegins(c: Codec, sent: seq<byte>, payload: seq<byte>, seqno: byte, cseq: byte)
    ensures BeginsBehind(sent, sent + Wire(false, c, payload, seqno, cseq), if |payload| < 0xFFFFFF then |payload| else 0xFFFFFF, seqno)
  {
    hide Begins, Frames;
    FirstFrame(payload, seqno);
    assert (sent + Frames(payload, seqno))[|sent|..] == Frames(payload, seqno);
  }

  /** The plain stream that network bytes carry. */
  function Plain(compress: bool, c: Codec, bytes: seq<byte>): seq<byte>
  {
    if compress then Inflated(c, bytes) else bytes
  }

  lemma {:induction false} InflatedWire(c: Codec, payload: seq<byte>, seqno: byte, cseq: byte, rest: seq<byte>)
    requires Lossless(c)
    ensures Inflated(c, CompressedWire(c, payload, seqno, cseq) + rest) == Frames(payload, seqno) + Inflated(c, rest)
    decreases |payload|
  {
    hide Header, CompressedFrames, Inflated, Lossless;
    if |payload| < MAX {
      InflatedFrames(c, Header(|payload|, seqno) + payload, cseq, rest);
    } else {
      var frame, tail := Header(MAX, seqno) + payload[..MAX], payload[MAX..];
      var more := CompressedWire(c, tail, Next(seqno), CompressedNext(frame, cseq)) + rest;
      assert CompressedWire(c, payload, seqno, cseq) + rest == CompressedFrames(c, frame, cseq) + more;
      InflatedFrames(c, frame, cseq, more);
      InflatedWire(c, tail, Next(seqno), CompressedNext(frame, cseq), rest);
      assert frame + (Frames(tail, Next(seqno)) + Inflated(c, rest)) == Frames(payload, seqno) + Inflated(c, rest);
    }
  }

  /** What one side writes, plain or through the compression layer, the other side reads back:
      exactly the payload, with everything behind it left for the next read, and the sequence
      numbers of both sides equal. */
  lemma WireRoundTrip(compress: bool, c: Codec, payload: seq<byte>, seqno: byte, cseq: byte, rest: seq<byte>)
    requires |payload| > 0 && Lossless(c)
    ensures Parse(Plain(compress, c, Wire(compress, c, payload, seqno, cseq) + rest), seqno, [], false, false, compress)
      == Packet(payload, Plain(compress, c, rest), LastNext(payload, seqno))
    ensures LastNext(payload, seqno) == (seqno + |payload| / MAX + 1) % 256
  {
    hide Frames, Parse, LastNext, CompressedWire, Inflated, Lossless;
    if compress { InflatedWire(c, payload, seqno, cseq, rest); }
    FramesParse(payload, seqno, Plain(compress, c, rest), [], false, compress);
    LastNextCounts(payload, seqno);
    assert [] + payload == payload;
  }

  /** y extends x and is a prefix of z. */
  predicate Between(x: seq<byte>, y: seq<byte>, z: seq<byte>)
  {
    |x| <= |y| <= |z| && y[..|x|] == x && z[..|y|] == y
  }

  lemma PartWritten(start: seq<byte>, before: seq<byte>, packet: seq<byte>, k: nat, goal: seq<byte>)
    requires |start| <= |before| && before[..|start|] == start && k <= |packet|
    requires |goal| >= |before| + |packet| && goal[..|before| + |packet|] == before + packet
    ensures Between(start, before + packet[..k], goal)
  {
    var y := before + packet[..k];
    assert y == (before + packet)[..|y|];
    assert goal[..|y|] == goal[..|before| + |packet|][..|y|];
    assert y[..|start|] == before[..|start|];
  }

  /** After y, which extends x, more completes z. */
  predicate OnTheWay(x: seq<byte>, y: seq<byte>, more: seq<byte>, z: seq<byte>)
  {
    |x| <= |y| && y[..|x|] == x && y + more == z
  }

  lemma PieceOnTheWay(x: seq<byte>, y: seq<byte>, packet: seq<byte>, more: seq<byte>, z: seq<byte>)
    requires OnTheWay(x, y, packet + more, z)
    ensures OnTheWay(x, y + packet, more, z)
    ensures |y| + |packet| <= |z| && z[..|y| + |packet|] == y + packet
  {
    assert y + (packet + more) == (y + packet) + more;
  }

  lemma NoFrames(c: Codec, cseq: byte)
    ensures CompressedFrames(c, [], cseq) == [] && CompressedNext([], cseq) == cseq
  {
  }

  /** One compressed packet. */
  function PackedPiece(c: Codec, piece: seq<byte>, cseq: byte): seq<byte>
  {
    var (body, full) := Pack(c, piece);
    CompressedHeader(|body|, cseq, full) + body
  }

  lemma FramesStep(c: Codec, data: seq<byte>, cseq: byte)
    requires data != []
    ensures CompressedFrames(c, data, cseq) == PackedPiece(c, Piece(data), cseq) + CompressedFrames(c, data[|Piece(data)|..], Next(cseq))
    ensures CompressedNext(data, cseq) == CompressedNext(data[|Piece(data)|..], Next(cseq))
    ensures |PackedPiece(c, Piece(data), cseq)| >= 7
  {
  }

  lemma FrameBody(all: seq<byte>, n: nat)
    requires |all| >= 4 + n
    ensures all[4..][..n] == all[4..4 + n] && all[4..][n..] == all[4 + n..]
  {
  }

  datatype ReadResult = Data(payload: seq<byte>) | ReadFailed(error: ReadError)

  /** writePacket's outcomes: done; refused for its size; failed before a single byte was sent, so
      that the command may be retried elsewhere; failed otherwise. */
  datatype WriteResult = Written | TooLarge | NothingSent | WriteFailed

  class Connection {
    const maxAllowedPacket: int
    const compress: bool
    const codec: Codec
    const buf: Buffer
    const source: Source
    var sequence: byte
    var compressSequence: byte
    var inflated: seq<byte>
    var sent: seq<byte>
    var room: nat
    var closed: bool

    constructor (maxAllowedPacket: int, compress: bool, codec: Codec, source: Source, room: nat)
      ensures Valid() && this.maxAllowedPacket == maxAllowedPacket && this.compress == compress && this.codec == codec
      ensures this.source == source && this.room == room && sequence == 0 && compressSequence == 0
      ensures sent == [] && !closed && fresh(buf) && fresh(buf.cached) && Incoming() == source.data && inflated == []
    {
      this.maxAllowedPacket, this.compress, this.codec, this.source, this.room := maxAllowedPacket, compress, codec, source, room;
      buf := new Buffer();
      sequence, compressSequence, inflated, sent, closed := 0, 0, [], [], false;
    }

    ghost predicate Valid()
      reads buf
    {
      buf.Valid()
    }

    /** The network bytes not yet consumed: buffered ones first. */
    ghost function Incoming(): seq<byte>
      requires Valid()
      reads buf, buf.arr, source
    {
      buf.Contents() + source.data
    }

    /** The packet stream not yet consumed. */
    ghost function Stream(): seq<byte>
      requires Valid()
      reads `inflated, buf, buf.arr, source
    {
      if compress then inflated + Inflated(codec, Incoming()) else Incoming()
    }

    // ------------------------------------------------------------- reading

    /** readNext on the network buffer: the next n bytes, or failure when fewer are left. */
    method NetNext(n: nat) returns (ok: bool, data: seq<byte>)
      requires Valid()
      modifies buf, buf.cached, source
      ensures Valid() && (buf.cached == old(buf.cached) || fresh(buf.cached))
      ensures ok <==> n <= |old(Incoming())|
      ensures ok ==> data == old(Incoming())[..n] && Incoming() == old(Incoming())[n..]
    {
      ghost var all := Incoming();
      if buf.Len() < n {
        ok := buf.Fill(n, source);
        assert Incoming() == all;
        if !ok {
          return false, [];
        }
      }
      ghost var c, d := buf.Contents(), source.data;
      data := buf.ReadNext(n);
      ok := true;
      assert c + d == all;
      assert data == all[..n];
      assert c[n..] + d == all[n..];
    }

    /** readCompressedPacket: moves the bytes of one compressed packet to the inflated ones. */
    method ReadCompressedPacket() returns (ok: bool)
      requires Valid()
      modifies this, buf, buf.cached, source
      ensures Valid() && (buf.cached == old(buf.cached) || fresh(buf.cached))
      ensures sequence == old(sequence) && sent == old(sent) && room == old(room) && closed == old(closed)
      ensures ok <==> Unpack(codec, old(Incoming())).Bytes?
      ensures ok ==> Incoming() == Unpack(codec, old(Incoming())).rest
      ensures ok ==> inflated == old(inflated) + Unpack(codec, old(Incoming())).data
      ensures ok ==> compressSequence == Unpack(codec, old(Incoming())).seqno
    {
      hide GetUint24;
      ghost var all := Incoming();
      var header: seq<byte>, body: seq<byte>;
      ok, header := NetNext(7);
      if !ok {
        return;
      }
      var n, full := GetUint24(header[0..3]), GetUint24(header[4..7]);
      assert header[0..3] == all[..3] && header[4..7] == all[4..7];
      compressSequence := Next(header[3]);
      ok, body := NetNext(n);
      if !ok {
        return;
      }
      assert body == all[7..7 + n] && Incoming() == all[7 + n..];
      if full == 0 {
        inflated := inflated + body;
        return;
      }
      var x := codec.inflate(body);
      if x.None? {
        return false;
      }
      inflated := inflated + x.value;
      ok := |x.value| == full;
    }

    /** compIO.readNext: inflates packets until there are enough bytes. */
    method InflatedNext(n: nat) returns (ok: bool, data: seq<byte>)
      requires Valid() && compress
      modifies this, buf, buf.cached, source
      ensures Valid() && (buf.cached == old(buf.cached) || fresh(buf.cached))
      ensures sequence == old(sequence) && sent == old(sent) && room == old(room) && closed == old(closed)
      ensures ok <==> n <= |old(Stream())|
      ensures ok ==> data == old(Stream())[..n] && Stream() == old(Stream())[n..]
    {
      hide Unpack;
      ghost var all := Stream();
      while |inflated| < n
        invariant Valid() && (buf.cached == old(buf.cached) || fresh(buf.cached))
        invariant sequence == old(sequence) && sent == old(sent) && room == old(room) && closed == old(closed)
        invariant Stream() == all
        decreases |Incoming()|
      {
        ghost var before, i := inflated, Incoming();
        var read := ReadCompressedPacket();
        if !read {
          assert all == before + [];
          return false, [];
        }
        assert (before + Unpack(codec, i).data) + Inflated(codec, Incoming()) == before + (Unpack(codec, i).data + Inflated(codec, Incoming()));
      }
      ok := true;
      data := inflated[..n];
      inflated := inflated[n..];
      assert Stream() == all[n..];
    }

    method ReadNext(n: nat) returns (ok: bool, data: seq<byte>)
      requires Valid()
      modifies this, buf, buf.cached, source
      ensures Valid() && (buf.cached == old(buf.cached) || fresh(buf.cached))
      ensures sequence == old(sequence) && sent == old(sent) && room == old(room) && closed == old(closed)
      ensures ok <==> n <= |old(Stream())|
      ensures ok ==> data == old(Stream())[..n] && Stream() == old(Stream())[n..]
    {
      if compress {
        ok, data := InflatedNext(n);
      } else {
        ok, data := NetNext(n);
      }
    }

    method Close()
      modifies this`closed
      ensures closed
    {
      closed := true;
    }

    /** One turn of the loop of readPacket. */
    method ReadFrame(prev: seq<byte>, started: bool, invalid: bool) returns (done: bool, r: ReadResult, prev': seq<byte>, invalid': bool)
      requires Valid()
      modifies this, buf, buf.cached, source
      ensures Valid() && (buf.cached == old(buf.cached) || fresh(buf.cached))
      ensures sent == old(sent) && room == old(room)
      ensures var t := Turn(old(Stream()), old(sequence), prev, started, invalid, compress);
        (done <==> t.Done?)
        && (t.Done? && t.result.Failed? ==> r == ReadFailed(t.result.error) && closed)
        && (t.Done? && t.result.Packet? ==> r == Data(t.result.payload) && sequence == t.result.seqno && Stream() == t.result.rest)
        && (t.More? ==> prev' == t.prev && invalid' == t.invalid && sequence == t.seqno && Stream() == t.rest)
    {
      hide GetUint24, Inflated, Stream;
      ghost var all := Stream();
      done, r, prev', invalid' := true, ReadFailed(InvalidConn), prev, invalid;
      var ok, n, seqno := ReadHeader();
      if !ok {
        Close();
        return;
      }
      if seqno != sequence && !compress {
        if |prev| > 0 {
          Close();
          r := ReadFailed(PktSyncMul);
          return;
        }
        invalid' := true;
      }
      sequence := Next(seqno);
      if n == 0 {
        if !started {
          Close();
          return;
        }
        r := Data(prev);
        return;
      }
      var data: seq<byte>;
      ok, data := ReadNext(n);
      if !ok {
        Close();
        return;
      }
      FrameBody(all, n);
      prev' := prev + data;
      if n < MAX {
        r := Data(prev');
        if invalid' {
          Close();
          r := if prev'[0] != ERR then ReadFailed(PktSync) else r;
        }
        return;
      }
      done := false;
    }

    method ReadHeader() returns (ok: bool, n: nat, seqno: byte)
      requires Valid()
      modifies this, buf, buf.cached, source
      ensures Valid() && (buf.cached == old(buf.cached) || fresh(buf.cached))
      ensures sequence == old(sequence) && sent == old(sent) && room == old(room) && closed == old(closed)
      ensures ok <==> |old(Stream())| >= 4
      ensures ok ==> n == GetUint24(old(Stream())[..3]) && seqno == old(Stream())[3] && Stream() == old(Stream())[4..]
    {
      hide GetUint24, Inflated, Stream;
      ghost var all := Stream();
      n, seqno := 0, 0;
      var data: seq<byte>;
      ok, data := ReadNext(4);
      if ok {
        assert data[..3] == all[..3];
        n, seqno := GetUint24(data[..3]), data[3];
      }
    }

    /** readPacket: exactly Parse of the packet stream. A failure closes the connection. */
    method ReadPacket() returns (r: ReadResult)
      requires Valid()
      modifies this, buf, buf.cached, source
      ensures Valid() && (buf.cached == old(buf.cached) || fresh(buf.cached))
      ensures sent == old(sent) && room == old(room)
      ensures var p := Parse(old(Stream()), old(sequence), [], false, false, compress);
        (p.Failed? ==> r == ReadFailed(p.error) && closed)
        && (p.Packet? ==> r == Data(p.payload) && sequence == p.seqno && Stream() == p.rest)
    {
      hide Turn, Inflated;
      var prev: seq<byte>, started, invalid, done := [], false, false, false;
      while true
        invariant Valid() && (buf.cached == old(buf.cached) || fresh(buf.cached))
        invariant sent == old(sent) && room == old(room)
        invariant Parse(Stream(), sequence, prev, started, invalid, compress) == Parse(old(Stream()), old(sequence), [], false, false, compress)
        decreases |Stream()|
      {
        done, r, prev, invalid := ReadFrame(prev, started, invalid);
        if done {
          return;
        }
        started := true;
      }
    }

    // ------------------------------------------------------------- writing

    /** One write to the network: all of it, or a part and an error. */
    method NetWrite(b: seq<byte>) returns (n: nat, ok: bool)
      modifies this`sent, this`room
      ensures n <= |b| && sent == old(sent) + b[..n]
      ensures ok ==> n == |b|
    {
      n := if |b| <= room then |b| else room;
      ok := n == |b|;
      sent := sent + b[..n];
      room := room - n;
    }

    /** writeCompressedPacket for one piece. */
    method WritePiece(piece: seq<byte>) returns (n: nat, ok: bool)
      modifies this`sent, this`room, this`compressSequence, this`inflated
      ensures compressSequence == Next(old(compressSequence))
      ensures n <= |PackedPiece(codec, piece, old(compressSequence))|
      ensures sent == old(sent) + PackedPiece(codec, piece, old(compressSequence))[..n]
      ensures ok ==> n == |PackedPiece(codec, piece, old(compressSequence))|
    {
      var packet := PackedPiece(codec, piece, compressSequence);
      inflated := [];
      compressSequence := Next(compressSequence);
      n, ok := NetWrite(packet);
    }

    /** writePackets of the compression layer. The count returned on failure is 0 only if nothing
        went out. */
    method CompressedWrite(b: seq<byte>) returns (n: nat, ok: bool)
      modifies this`sent, this`room, this`compressSequence, this`inflated
      ensures ok ==> n == |b| && sent == old(sent) + CompressedFrames(codec, b, old(compressSequence))
      ensures ok ==> compressSequence == CompressedNext(b, old(compressSequence))
      ensures !ok ==> Between(old(sent), sent, old(sent) + CompressedFrames(codec, b, old(compressSequence)))
      ensures !ok && n == 0 ==> sent == old(sent)
    {
      hide CompressedFrames, CompressedNext, PackedPiece;
      var rest := b;
      ghost var goal := sent + CompressedFrames(codec, b, compressSequence);
      ghost var last := CompressedNext(b, compressSequence);
      while rest != []
        invariant |rest| <= |b| && (|rest| == |b| ==> sent == old(sent))
        invariant OnTheWay(old(sent), sent, CompressedFrames(codec, rest, compressSequence), goal)
        invariant CompressedNext(rest, compressSequence) == last
        decreases |rest|
      {
        var piece := Piece(rest);
        ghost var before, packet := sent, PackedPiece(codec, piece, compressSequence);
        FramesStep(codec, rest, compressSequence);
        PieceOnTheWay(old(sent), before, packet, CompressedFrames(codec, rest[|piece|..], Next(compressSequence)), goal);
        var k, written := WritePiece(piece);
        if !written {
          PartWritten(old(sent), before, packet, k, goal);
          return |b| - |rest| + k, false;
        }
        assert packet[..k] == packet;
        rest := rest[|piece|..];
      }
      NoFrames(codec, compressSequence);
      assert goal == sent;
      return |b|, true;
    }

    method Send(b: seq<byte>) returns (n: nat, ok: bool)
      modifies this`sent, this`room, this`compressSequence, this`inflated
      ensures ok ==> n == |b| && sent == old(sent) + (if compress then CompressedFrames(codec, b, old(compressSequence)) else b)
      ensures ok ==> compressSequence == if compress then CompressedNext(b, old(compressSequence)) else old(compressSequence)
      ensures !ok ==> Between(old(sent), sent, old(sent) + if compress then CompressedFrames(codec, b, old(compressSequence)) else b)
      ensures !ok && n == 0 ==> sent == old(sent)
    {
      if compress {
        n, ok := CompressedWrite(b);
      } else {
        n, ok := NetWrite(b);
        if ok { assert b[..n] == b; }
        PartWritten(old(sent), old(sent), b, n, old(sent) + b);
      }
    }

    /** putUint24 and the sequence number, over whatever data[at..at+4] held. */
    method PutHeader(data: array<byte>, at: nat, size: nat)
      requires at + 4 <= data.Length && size <= MAX
      modifies data
      ensures data[at..at + 4] == Header(size, sequence)
      ensures forall k :: 0 <= k < data.Length && !(at <= k < at + 4) ==> data[k] == old(data[k])
    {
      data[at + 2] := (size / 65536) % 256;
      data[at + 1] := (size / 256) % 256;
      data[at] := size % 256;
      data[at + 3] := sequence;
    }

    /** One frame: its header over whatever was there, then one write. */
    method WriteFrame(data: array<byte>, at: nat, hi: nat) returns (n: nat, ok: bool)
      requires at + 4 <= hi <= data.Length
      modifies this`sequence, this`compressSequence, this`sent, this`room, this`inflated, data
      ensures ok ==> sent == old(sent) + FirstWrite(compress, codec, old(data[at + 4..hi]), old(sequence), old(compressSequence))
      ensures ok ==> compressSequence == NextC(compress, old(data[at + 4..hi]), old(sequence), old(compressSequence))
      ensures ok ==> sequence == Next(old(sequence))
      ensures !ok ==>
        Between(old(sent), sent, old(sent) + FirstWrite(compress, codec, old(data[at + 4..hi]), old(sequence), old(compressSequence)))
      ensures !ok && n == 0 ==> sent == old(sent)
      ensures forall k :: at + 4 <= k < data.Length ==> data[k] == old(data[k])
    {
      hide Header, CompressedFrames, CompressedNext;
      var size := if hi - at - 4 < MAX then hi - at - 4 else MAX;
      ghost var rest := data[at + 4..hi];
      PutHeader(data, at, size);
      assert data[at + 4..hi] == rest;
      assert data[at + 4..at + 4 + size] == data[at + 4..hi][..size];
      assert data[at..at + 4 + size] == data[at..at + 4] + data[at + 4..at + 4 + size];
      n, ok := Send(data[at..at + 4 + size]);
      if ok { sequence := Next(sequence); }
    }

    /** writePacket on data[lo..hi], whose first four bytes are room for the header. Headers of
        later frames overwrite bytes that have already gone out; nothing from hi on is touched. */
    method WritePacket(data: array<byte>, lo: nat, hi: nat) returns (r: WriteResult)
      requires lo + 4 <= hi <= data.Length
      modifies this`sequence, this`compressSequence, this`sent, this`room, this`inflated, this`closed, data
      ensures r == TooLarge <==> hi - lo - 4 > maxAllowedPacket
      ensures r == TooLarge ==> sent == old(sent) && sequence == old(sequence) && compressSequence == old(compressSequence)
      ensures r == Written ==> sent == old(sent) + Wire(compress, codec, old(data[lo + 4..hi]), old(sequence), old(compressSequence))
      ensures r == Written ==> sequence == LastNext(old(data[lo + 4..hi]), old(sequence))
      ensures r == Written && !compress ==>
        BeginsBehind(old(sent), sent, if hi - lo - 4 < 0xFFFFFF then hi - lo - 4 else 0xFFFFFF, old(sequence))
      ensures r == NothingSent ==> sent == old(sent)
      ensures r == NothingSent || r == WriteFailed ==> closed
      ensures r == NothingSent || r == WriteFailed ==>
        Between(old(sent), sent, old(sent) + Wire(compress, codec, old(data[lo + 4..hi]), old(sequence), old(compressSequence)))
      ensures forall k :: hi <= k < data.Length ==> data[k] == old(data[k])
    {
      hide Wire, LastNext, Between, BeginsBehind;
      if hi - lo - 4 > maxAllowedPacket {
        return TooLarge;
      }
      WireBegins(codec, sent, data[lo + 4..hi], sequence, compressSequence);
      r := WriteFrames(data, lo, hi);
    }

    /** The loop of writePacket. */
    method WriteFrames(data: array<byte>, lo: nat, hi: nat) returns (r: WriteResult)
      requires lo + 4 <= hi <= data.Length
      modifies this`sequence, this`compressSequence, this`sent, this`room, this`inflated, this`closed, data
      ensures r != TooLarge
      ensures r == Written ==> sent == old(sent) + Wire(compress, codec, old(data[lo + 4..hi]), old(sequence), old(compressSequence))
      ensures r == Written ==> sequence == LastNext(old(data[lo + 4..hi]), old(sequence))
      ensures r == NothingSent ==> sent == old(sent)
      ensures r == NothingSent || r == WriteFailed ==> closed
      ensures r == NothingSent || r == WriteFailed ==>
        Between(old(sent), sent, old(sent) + Wire(compress, codec, old(data[lo + 4..hi]), old(sequence), old(compressSequence)))
      ensures forall k :: hi <= k < data.Length ==> data[k] == old(data[k])
    {
      hide Wire, LastNext, OnTheWay, Between;
      ghost var payload, start := data[lo + 4..hi], sent;
      ghost var goal := sent + Wire(compress, codec, payload, sequence, compressSequence);
      StartOnTheWay(sent, Wire(compress, codec, payload, sequence, compressSequence));
      var at := lo;
      while true
        invariant lo <= at && at + 4 <= hi && (at == lo ==> sent == start)
        invariant OnTheWay(start, sent, Wire(compress, codec, data[at + 4..hi], sequence, compressSequence), goal)
        invariant LastNext(data[at + 4..hi], sequence) == LastNext(payload, old(sequence))
        invariant forall k :: hi <= k < data.Length ==> data[k] == old(data[k])
        decreases hi - at
      {
        var n, ok, more := WriteTurn(data, at, hi, start, goal);
        if !ok {
          return if n == 0 && at == lo then NothingSent else WriteFailed;
        }
        if !more {
          return Written;
        }
        at := at + MAX;
      }
    }

    /** One turn of the loop of writePacket. */
    method WriteTurn(data: array<byte>, at: nat, hi: nat, ghost start: seq<byte>, ghost goal: seq<byte>) returns (n: nat, ok: bool, more: bool)
      requires at + 4 <= hi <= data.Length
      requires OnTheWay(start, sent, Wire(compress, codec, data[at + 4..hi], sequence, compressSequence), goal)
      modifies this`sequence, this`compressSequence, this`sent, this`room, this`inflated, this`closed, data
      ensures !ok ==> closed && Between(start, sent, goal) && (n == 0 ==> sent == old(sent))
      ensures ok ==> more == (hi - at - 4 >= MAX)
      ensures ok && !more ==> sent == goal && sequence == LastNext(old(data[at + 4..hi]), old(sequence))
      ensures ok && more ==> OnTheWay(start, sent, Wire(compress, codec, data[at + MAX + 4..hi], sequence, compressSequence), goal)
      ensures ok && more ==> LastNext(data[at + MAX + 4..hi], sequence) == LastNext(old(data[at + 4..hi]), old(sequence))
      ensures forall k :: at + 4 <= k < data.Length ==> data[k] == old(data[k])
    {
      hide Wire, LastNext, FirstWrite, NextC, Between;
      ghost var rest, before, s, c := data[at + 4..hi], sent, sequence, compressSequence;
      WireStep(compress, codec, rest, s, c);
      ghost var first := FirstWrite(compress, codec, rest, s, c);
      more := hi - at - 4 >= MAX;
      ghost var later := if more then Wire(compress, codec, rest[MAX..], Next(s), NextC(compress, rest, s, c)) else [];
      assert first + later == Wire(compress, codec, rest, s, c);
      PieceOnTheWay(start, before, first, later, goal);
      n, ok := WriteFrame(data, at, hi);
      if !ok {
        closed := true;
        BetweenWider(start, before, sent, first, goal);
      } else if more {
        assert data[at + MAX + 4..hi] == rest[MAX..];
      } else {
        assert sent + [] == sent;
      }
    }
  }

  // ------------------------------------------------- long statement data

  const LONG_DATA: byte := 0x18

  const DATA_OFFSET: int := 7

  /** The seven bytes in front of each chunk: command, statement id, parameter number. */
  function ChunkHead(id: nat, paramID: nat): (h: seq<byte>)
    ensures |h| == DATA_OFFSET
  {
    [LONG_DATA, id % 256, (id / 256) % 256, (id / 65536) % 256, (id / 16777216) % 256, paramID % 256, (paramID / 256) % 256]
  }

  /** The command byte 0x18, then the statement id in four bytes and the parameter number in two, least
      significant byte first, both as far as they fit. */
  lemma ChunkHeadLayout(id: nat, paramID: nat)
    ensures var h := ChunkHead(id, paramID);
      h[0] == 0x18 && LittleEndian(h[1..5]) == id % 0x1_0000_0000 && LittleEndian(h[5..7]) == paramID % 0x1_0000
  {
    hide ToBytes, LittleEndian;
    BytesOf4(id);
    BytesOf2(paramID);
    var h := ChunkHead(id, paramID);
    assert h[1..5] == [id % 256, (id / 256) % 256, (id / 65536) % 256, (id / 16777216) % 256];
    assert h[5..7] == [paramID % 256, (paramID / 256) % 256];
  }

  lemma TwoBytes(x: byte, y: byte, more: seq<byte>)
    ensures LittleEndian([x, y] + more) == x as int + 256 * (y as int) + 65536 * LittleEndian(more)
  {
    var s := [x, y] + more;
    assert s[1..] == [y] + more && s[1..][1..] == more;
    assert LittleEndian(s[1..]) == y as int + 256 * LittleEndian(more);
  }

  lemma LowBytes(n: nat)
    ensures n % 65536 == n % 256 + 256 * ((n / 256) % 256)
  {
    var q, r := n / 256, n % 256;
    var s, t := q / 256, q % 256;
    assert n == 65536 * s + (256 * t + r);
    QuotientUnique(n, s, 256 * t + r, 65536);
  }

  lemma BytesOf2(n: nat)
    ensures LittleEndian([n % 256, (n / 256) % 256]) == n % 0x1_0000
  {
    TwoBytes(n % 256, (n / 256) % 256, []);
    assert [n % 256, (n / 256) % 256] + [] == [n % 256, (n / 256) % 256];
    LowBytes(n);
  }

  lemma BytesOf4(n: nat)
    ensures LittleEndian([n % 256, (n / 256) % 256, (n / 65536) % 256, (n / 16777216) % 256]) == n % 0x1_0000_0000
  {
    hide LittleEndian;
    var q := n / 65536;
    Quotient16777216(n, q);
    var more: seq<byte> := [(n / 65536) % 256, (n / 16777216) % 256];
    BytesOf2(q);
    TwoBytes(n % 256, (n / 256) % 256, more);
    assert [n % 256, (n / 256) % 256] + more == [n % 256, (n / 256) % 256, (n / 65536) % 256, (n / 16777216) % 256];
    LowBytes(n);
    LowWords(n);
  }

  lemma LowWords(n: nat)
    ensures n % 0x1_0000_0000 == n % 65536 + 65536 * ((n / 65536) % 65536)
  {
    var q, r := n / 65536, n % 65536;
    var s, t := q / 65536, q % 65536;
    assert n == 0x1_0000_0000 * s + (65536 * t + r);
    QuotientUnique(n, s, 65536 * t + r, 0x1_0000_0000);
  }

  lemma Quotient16777216(n: nat, q: nat)
    requires q == n / 65536
    ensures n / 16777216 == q / 256
  {
  }

  function Join(chunks: seq<seq<byte>>): seq<byte>
  {
    if chunks == [] then [] else Join(chunks[..|chunks| - 1]) + chunks[|chunks| - 1]
  }

  /** The wire form of the chunks: every packet after the first starts again from sequence 0. */
  function LongWire(compress: bool, c: Codec, head: seq<byte>, chunks: seq<seq<byte>>, seqno: byte, cseq: byte): seq<byte>
  {
    if chunks == [] then []
    else
      var n := |chunks| - 1;
      LongWire(compress, c, head, chunks[..n], seqno, cseq)
        + (if n == 0 then Wire(compress, c, head + chunks[n], seqno, cseq) else Wire(compress, c, head + chunks[n], 0, 0))
  }

  /** What writeCommandLongData needs to make progress: with at most 8 bytes per packet there is no
      room for data behind the seven bytes, and the loop's counter never comes down. */
  lemma ChunkSize(maxAllowedPacket: int, left: int)
    requires left > 0
    ensures var maxLen := maxAllowedPacket - 1;
      var pktLen := if DATA_OFFSET + left < maxLen then DATA_OFFSET + left else maxLen;
      (pktLen - DATA_OFFSET > 0 <==> maxAllowedPacket > 8) && (maxAllowedPacket > 8 ==> pktLen - DATA_OFFSET <= left)
  {
  }

  /** writeCommandLongData: the chunks sent concatenate to arg, none is larger than
      maxAllowedPacket - 1 with its seven bytes, and each goes out as a packet of its own. */
  method WriteCommandLongData(mc: Connection, id: nat, paramID: nat, arg: seq<byte>) returns (r: WriteResult, ghost chunks: seq<seq<byte>>)
    requires mc.maxAllowedPacket > 8
    modifies mc`sequence, mc`compressSequence, mc`sent, mc`room, mc`inflated, mc`closed
    ensures r != TooLarge
    ensures Fitting(chunks, mc.maxAllowedPacket)
    ensures r == Written ==> Join(chunks) == arg
    ensures r == Written ==>
      mc.sent == old(mc.sent) + LongWire(mc.compress, mc.codec, ChunkHead(id, paramID), chunks, old(mc.sequence), old(mc.compressSequence))
    ensures r == Written && arg != [] ==> mc.sequence == 0 && mc.compressSequence == 0
  {
    hide Wire, ChunkHead, LastNext, Between, LongWire, Join, Fitting;
    var maxLen := mc.maxAllowedPacket - 1;
    var data := new byte[4 + DATA_OFFSET + |arg|](_ => 0);
    CopyInto(data, 4 + DATA_OFFSET, arg);
    var at, left := 0, |arg|;
    chunks := [];
    ghost var head, s0, c0 := ChunkHead(id, paramID), mc.sequence, mc.compressSequence;
    NoChunks(mc.compress, mc.codec, head, s0, c0);
    assert Fitting([], mc.maxAllowedPacket) by { NothingFits(mc.maxAllowedPacket); }
    assert arg[..0] == [] && arg[0..] == arg && mc.sent == mc.sent + [];
    while left > 0
      invariant 0 <= left && at + left == |arg| && data[at + 11..] == arg[at..]
      invariant Join(chunks) == arg[..at]
      invariant mc.sent == old(mc.sent) + LongWire(mc.compress, mc.codec, head, chunks, s0, c0)
      invariant if chunks == [] then mc.sequence == s0 && mc.compressSequence == c0 else mc.sequence == 0 && mc.compressSequence == 0
      invariant at > 0 ==> chunks != []
      invariant Fitting(chunks, mc.maxAllowedPacket)
    {
      ChunkSize(mc.maxAllowedPacket, left);
      var pktLen := if DATA_OFFSET + left < maxLen then DATA_OFFSET + left else maxLen;
      var size := pktLen - DATA_OFFSET;
      ghost var chunk := arg[at..at + size];
      SliceOf(data[at + 11..], arg, at, size);
      assert data[at + 11..at + 11 + size] == chunk;
      LongWireNext(mc.compress, mc.codec, head, chunks, chunk, s0, c0);
      JoinNext(chunks, chunk);
      r := SendChunk(mc, data, at, pktLen, id, paramID);
      if r != Written {
        return;
      }
      FittingNext(chunks, chunk, mc.maxAllowedPacket);
      chunks := chunks + [chunk];
      at := at + size;
      left := left - size;
    }
    r := Written;
    assert arg[..|arg|] == arg;
  }

  /** No chunk is empty, and with its seven bytes each stays below the limit. */
  predicate Fitting(chunks: seq<seq<byte>>, maxAllowedPacket: int)
  {
    forall k :: 0 <= k < |chunks| ==> 0 < |chunks[k]| && 7 + |chunks[k]| < maxAllowedPacket
  }

  lemma NothingFits(maxAllowedPacket: int)
    ensures Fitting([], maxAllowedPacket)
  {
  }

  lemma FittingNext(chunks: seq<seq<byte>>, chunk: seq<byte>, maxAllowedPacket: int)
    requires Fitting(chunks, maxAllowedPacket) && 0 < |chunk| && 7 + |chunk| < maxAllowedPacket
    ensures Fitting(chunks + [chunk], maxAllowedPacket)
  {
  }

  lemma SliceOf(rest: seq<byte>, arg: seq<byte>, at: nat, size: nat)
    requires at + size <= |arg| && rest == arg[at..]
    ensures rest[..size] == arg[at..at + size] && rest[size..] == arg[at + size..]
    ensures arg[..at] + arg[at..at + size] == arg[..at + size]
  {
  }

  lemma NoChunks(compress: bool, c: Codec, head: seq<byte>, s: byte, cs: byte)
    ensures LongWire(compress, c, head, [], s, cs) == [] && Join([]) == []
  {
  }

  /** The body of the loop: the seven bytes in front of the chunk, one packet, sequence reset. */
  method SendChunk(mc: Connection, data: array<byte>, at: nat, pktLen: nat, id: nat, paramID: nat) returns (r: WriteResult)
    requires DATA_OFFSET < pktLen < mc.maxAllowedPacket && at + 4 + pktLen <= data.Length
    modifies mc`sequence, mc`compressSequence, mc`sent, mc`room, mc`inflated, mc`closed, data
    ensures r != TooLarge && mc.sequence == 0 && mc.compressSequence == 0
    ensures r == Written ==>
      mc.sent == old(mc.sent) + Wire(mc.compress, mc.codec, ChunkHead(id, paramID) + old(data[at + 11..at + 4 + pktLen]), old(mc.sequence), old(mc.compressSequence))
    ensures data[at + 4 + pktLen..] == old(data[at + 4 + pktLen..])
  {
    hide Wire, ChunkHead, LastNext, Between;
    ghost var chunk := data[at + 11..at + 4 + pktLen];
    PutChunkHead(data, at + 4, id, paramID);
    assert data[at + 11..at + 4 + pktLen] == chunk;
    assert data[at + 4..at + 4 + pktLen] == data[at + 4..at + 11] + data[at + 11..at + 4 + pktLen];
    r := mc.WritePacket(data, at, at + 4 + pktLen);
    ResetSequence(mc);
  }

  method CopyInto(data: array<byte>, start: nat, s: seq<byte>)
    requires start + |s| == data.Length
    modifies data
    ensures data[start..] == s
  {
    for k := 0 to |s|
      invariant forall j :: 0 <= j < k ==> data[start + j] == s[j]
    {
      data[start + k] := s[k];
    }
  }

  method PutChunkHead(data: array<byte>, at: nat, id: nat, paramID: nat)
    requires at + DATA_OFFSET <= data.Length
    modifies data
    ensures data[at..at + DATA_OFFSET] == ChunkHead(id, paramID)
    ensures forall k :: 0 <= k < data.Length && !(at <= k < at + DATA_OFFSET) ==> data[k] == old(data[k])
  {
    ghost var h := ChunkHead(id, paramID);
    data[at] := LONG_DATA;
    data[at + 1] := id % 256;
    data[at + 2] := (id / 256) % 256;
    data[at + 3] := (id / 65536) % 256;
    data[at + 4] := (id / 16777216) % 256;
    data[at + 5] := paramID % 256;
    data[at + 6] := (paramID / 256) % 256;
    assert data[at..at + 7] == [data[at], data[at + 1], data[at + 2], data[at + 3], data[at + 4], data[at + 5], data[at + 6]];
  }

  method ResetSequence(mc: Connection)
    modifies mc`sequence, mc`compressSequence
    ensures mc.sequence == 0 && mc.compressSequence == 0
  {
    mc.sequence, mc.compressSequence := 0, 0;
  }

  lemma LongWireNext(compress: bool, c: Codec, head: seq<byte>, chunks: seq<seq<byte>>, chunk: seq<byte>, s: byte, cs: byte)
    ensures LongWire(compress, c, head, chunks + [chunk], s, cs) == LongWire(compress, c, head, chunks, s, cs)
      + (if chunks == [] then Wire(compress, c, head + chunk, s, cs) else Wire(compress, c, head + chunk, 0, 0))
  {
    assert (chunks + [chunk])[..|chunks|] == chunks;
  }

  lemma JoinNext(chunks: seq<seq<byte>>, chunk: seq<byte>)
    ensures Join(chunks + [chunk]) == Join(chunks) + chunk
  {
    assert (chunks + [chunk])[..|chunks|] == chunks;
  }

  lemma StartOnTheWay(x: seq<byte>, more: seq<byte>)
    ensures OnTheWay(x, x, more, x + more)
  {
  }

  /** The first network write for a payload, and what it does to the compressed numbering. */
  function FirstWrite(compress: bool, c: Codec, payload: seq<byte>, seqno: byte, cseq: byte): seq<byte>
  {
    var size := if |payload| < MAX then |payload| else MAX;
    var frame := Header(size, seqno) + payload[..size];
    if compress then CompressedFrames(c, frame, cseq) else frame
  }

  function NextC(compress: bool, payload: seq<byte>, seqno: byte, cseq: byte): byte
  {
    var size := if |payload| < MAX then |payload| else MAX;
    if compress then CompressedNext(Header(size, seqno) + payload[..size], cseq) else cseq
  }

  lemma WireStep(compress: bool, c: Codec, payload: seq<byte>, seqno: byte, cseq: byte)
    ensures |payload| < MAX ==> Wire(compress, c, payload, seqno, cseq) == FirstWrite(compress, c, payload, seqno, cseq)
    ensures |payload| >= MAX ==>
      Wire(compress, c, payload, seqno, cseq) == FirstWrite(compress, c, payload, seqno, cseq) + Wire(compress, c, payload[MAX..], Next(seqno), NextC(compress, payload, seqno, cseq))
    ensures LastNext(payload, seqno) == if |payload| < MAX then Next(seqno) else LastNext(payload[MAX..], Next(seqno))
  {
    hide Header, CompressedFrames, CompressedNext;
    if |payload| < MAX { assert payload[..|payload|] == payload; }
  }

  lemma BetweenWider(x: seq<byte>, y: seq<byte>, w: seq<byte>, piece: seq<byte>, z: seq<byte>)
    requires |x| <= |y| && y[..|x|] == x && Between(y, w, y + piece)
    requires |y| + |piece| <= |z| && z[..|y| + |piece|] == y + piece
    ensures Between(x, w, z)
  {
    assert w[..|x|] == w[..|y|][..|x|];
    assert z[..|w|] == z[..|y| + |piece|][..|w|];
  }
}
