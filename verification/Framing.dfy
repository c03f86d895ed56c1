/** MySQL packet framing (packets.go, utils.go): how payloads are cut into frames and put together
    again, as functions on byte strings. The methods of module Connection are proved against them. */
module Framing {
  import opened Words

  /** Largest payload of one frame: 2^24 - 1. */
  const MAX: int := 0xFFFFFF

  /** putUint24: the low 24 bits, least significant byte first. */
  function PutUint24(n: nat): (b: seq<byte>)
    ensures |b| == 3
  {
    [n % 256, (n / 256) % 256, (n / 65536) % 256]
  }

  /** getUint24. */
  function GetUint24(b: seq<byte>): (n: nat)
    requires |b| == 3
    ensures n <= MAX
  {
    ThreeDigits(b[0], b[1], b[2])
  }

  function ThreeDigits(a: int, b: int, c: int): int { a + 256 * b + 65536 * c }

  lemma Uint24RoundTrip(n: nat, b: seq<byte>)
    requires |b| == 3
    ensures n <= MAX ==> GetUint24(PutUint24(n)) == n
    ensures PutUint24(GetUint24(b)) == b
  {
    if n <= MAX { DigitsOf24(n); }
    DigitsBack(b[0], b[1], b[2]);
  }

  lemma DigitsOf24(n: nat)
    requires n <= MAX
    ensures ThreeDigits(n % 256, (n / 256) % 256, (n / 65536) % 256) == n
  {
    var q := n / 256;
    assert n == 256 * q + n % 256;
    assert q == 256 * (q / 256) + q % 256;
    assert q / 256 == n / 65536 by { QuotientBy65536(n, q); }
    assert n / 65536 < 256;
  }

  lemma QuotientBy65536(n: nat, q: nat)
    requires q == n / 256
    ensures n / 65536 == q / 256
  {
  }

  lemma DigitsBack(a: int, b: int, c: int)
    requires 0 <= a < 256 && 0 <= b < 256 && 0 <= c < 256
    ensures var n := ThreeDigits(a, b, c); n % 256 == a && (n / 256) % 256 == b && (n / 65536) % 256 == c
  {
    var n := ThreeDigits(a, b, c);
    assert n / 256 == b + 256 * c;
    assert n / 65536 == c;
  }

  /** Three bytes as a little-endian number. */
  lemma LittleEndian3(b: seq<byte>)
    requires |b| == 3
    ensures LittleEndian(b) == ThreeDigits(b[0], b[1], b[2])
  {
    var x: int, y: int, z: int := b[0], b[1], b[2];
    assert b[1..][1..] == b[2..] && b[2..][1..] == [];
    assert b[1..][0] == b[1] && b[2..][0] == b[2];
    assert LittleEndian(b[2..]) == z;
    assert LittleEndian(b[1..]) == y + 256 * z;
  }

  /** The length bytes lie least significant first. */
  lemma Uint24IsLittleEndian(n: nat, b: seq<byte>)
    requires |b| == 3
    ensures n <= 0xFFFFFF ==> LittleEndian(PutUint24(n)) == n
    ensures GetUint24(b) == LittleEndian(b)
  {
    LittleEndian3(b);
    LittleEndian3(PutUint24(n));
    if n <= 0xFFFFFF { DigitsOf24(n); }
  }

  function Next(seqno: byte): byte { (seqno + 1) % 256 }

  function Header(n: nat, seqno: byte): (h: seq<byte>)
    ensures |h| == 4
  {
    PutUint24(n) + [seqno]
  }

  /** The frames of a payload: full frames, then a shorter one, which may be empty. */
  function Frames(payload: seq<byte>, seqno: byte): seq<byte>
    decreases |payload|
  {
    if |payload| < MAX then Header(|payload|, seqno) + payload
    else Header(MAX, seqno) + payload[..MAX] + Frames(payload[MAX..], Next(seqno))
  }

  /** What a stream begins with: four bytes that give a length and a number. */
  predicate Begins(stream: seq<byte>, n: nat, seqno: byte)
  {
    |stream| >= 4 && LittleEndian(stream[..3]) == n && stream[3] == seqno
  }

  lemma HeaderBegins(n: nat, seqno: byte, more: seq<byte>)
    requires n <= 0xFFFFFF
    ensures Begins(Header(n, seqno) + more, n, seqno)
  {
    hide PutUint24;
    Uint24IsLittleEndian(n, PutUint24(n));
    assert (Header(n, seqno) + more)[..3] == PutUint24(n);
  }

  /** Where frame k of a payload begins. */
  function FrameAt(k: nat): nat { k * 0x1000003 }

  lemma FrameAtNext(k: nat)
    ensures FrameAt(k + 1) == FrameAt(k) + 0x1000003
  {
  }

  /** The whole layout: frame k starts 2^24+3 bytes behind frame k-1 with the length of its piece, at
      most 2^24-1 and least significant byte first, and the starting number plus k; its piece follows. */
  lemma {:induction false} FrameLayout(payload: seq<byte>, seqno: byte, k: nat)
    requires k * 0xFFFFFF <= |payload|
    ensures var rest := payload[k * 0xFFFFFF..];
      var n := if |rest| < 0xFFFFFF then |rest| else 0xFFFFFF;
      FrameAt(k) + 4 + n <= |Frames(payload, seqno)|
      && Begins(Frames(payload, seqno)[FrameAt(k)..], n, (seqno + k) % 256)
      && Frames(payload, seqno)[FrameAt(k) + 4..FrameAt(k) + 4 + n] == rest[..n]
    decreases k
  {
    hide Header, Begins, FrameAt, Frames;
    var rest := payload[k * 0xFFFFFF..];
    var n := if |rest| < 0xFFFFFF then |rest| else 0xFFFFFF;
    if k == 0 {
      FirstFrame(payload, seqno);
      assert rest == payload && Frames(payload, seqno)[0..] == Frames(payload, seqno);
    } else {
      FrameAtNext(k - 1);
      assert (k - 1) * 0xFFFFFF <= |payload[MAX..]|;
      FrameLayout(payload[MAX..], Next(seqno), k - 1);
      assert payload[MAX..][(k - 1) * 0xFFFFFF..] == rest;
      var tail := Frames(payload[MAX..], Next(seqno));
      var first := Header(MAX, seqno) + payload[..MAX];
      MoreFrames(payload, seqno);
      assert |first| == 0x1000003;
      var at := FrameAt(k - 1);
      Behind(first, tail, at, at + 4, at + 4 + n);
      SequenceWraps(seqno, k - 1);
    }
  }

  lemma MoreFrames(payload: seq<byte>, seqno: byte)
    requires |payload| >= MAX
    ensures Frames(payload, seqno) == Header(MAX, seqno) + payload[..MAX] + Frames(payload[MAX..], Next(seqno))
  {
  }

  lemma FirstFrame(payload: seq<byte>, seqno: byte)
    ensures FrameAt(0) == 0
    ensures var n := if |payload| < 0xFFFFFF then |payload| else 0xFFFFFF;
      4 + n <= |Frames(payload, seqno)| && Begins(Frames(payload, seqno), n, seqno)
      && Frames(payload, seqno)[4..4 + n] == payload[..n]
  {
    hide Header, Begins;
    var n := if |payload| < 0xFFFFFF then |payload| else 0xFFFFFF;
    var more := if |payload| < MAX then [] else Frames(payload[MAX..], Next(seqno));
    assert Frames(payload, seqno) == Header(n, seqno) + (payload[..n] + more);
    HeaderBegins(n, seqno, payload[..n] + more);
    assert (Header(n, seqno) + (payload[..n] + more))[4..4 + n] == payload[..n];
  }

  lemma Behind(first: seq<byte>, tail: seq<byte>, a: nat, b: nat, c: nat)
    requires a <= b <= c <= |tail|
    ensures (first + tail)[|first| + a..] == tail[a..]
    ensures (first + tail)[|first| + b..|first| + c] == tail[b..c]
  {
  }

  /** The sequence number after the last frame. */
  function LastNext(payload: seq<byte>, seqno: byte): byte
    decreases |payload|
  {
    if |payload| < MAX then Next(seqno) else LastNext(payload[MAX..], Next(seqno))
  }

  lemma {:induction false} LastNextCounts(payload: seq<byte>, seqno: byte)
    ensures LastNext(payload, seqno) == (seqno + |payload| / MAX + 1) % 256
    decreases |payload|
  {
    if |payload| >= MAX {
      LastNextCounts(payload[MAX..], Next(seqno));
      assert |payload[MAX..]| == |payload| - MAX;
      assert |payload| / MAX == (|payload| - MAX) / MAX + 1;
      SequenceWraps(seqno, |payload[MAX..]| / MAX + 1);
    }
  }

  lemma SequenceWraps(s: byte, k: nat)
    ensures (Next(s) + k) % 256 == (s + k + 1) % 256
  {
  }

  // ------------------------------------------------------------- reading

  datatype ReadError = InvalidConn | PktSync | PktSyncMul

  /** What reading a packet returns: the payload, what is left of the stream and the sequence
      number expected next; or an error. */
  datatype Parsed = Packet(payload: seq<byte>, rest: seq<byte>, seqno: byte) | Failed(error: ReadError)

  const ERR: byte := 0xFF

  /** One turn of the reading loop: finished, or a full frame to be continued. */
  datatype Turned = Done(result: Parsed) | More(prev: seq<byte>, invalid: bool, rest: seq<byte>, seqno: byte)

  /** A difference of sequence numbers is fatal inside a split packet, and otherwise makes any
      packet but an error packet fail; with compression it is ignored. */
  function Turn(stream: seq<byte>, expected: byte, prev: seq<byte>, started: bool, invalid: bool, compressed: bool): (t: Turned)
    ensures t.More? ==> |t.rest| < |stream|
  {
    if |stream| < 4 then Done(Failed(InvalidConn))
    else
      var n := GetUint24(stream[..3]);
      var wrong := stream[3] != expected && !compressed;
      if wrong && |prev| > 0 then Done(Failed(PktSyncMul))
      else
        var bad := invalid || wrong;
        var next := Next(stream[3]);
        if n == 0 then Done(if started then Packet(prev, stream[4..], next) else Failed(InvalidConn))
        else if |stream| - 4 < n then Done(Failed(InvalidConn))
        else
          var data := prev + stream[4..4 + n];
          if n < MAX then Done(if bad && data[0] != ERR then Failed(PktSync) else Packet(data, stream[4 + n..], next))
          else More(data, bad, stream[4 + n..], next)
  }

  /** readPacket as a function of the stream. */
  function Parse(stream: seq<byte>, expected: byte, prev: seq<byte>, started: bool, invalid: bool, compressed: bool): Parsed
    decreases |stream|
  {
    match Turn(stream, expected, prev, started, invalid, compressed)
    case Done(p) => p
    case More(data, bad, rest, next) => Parse(rest, next, data, true, bad, compressed)
  }

  lemma HeaderRead(n: nat, seqno: byte, more: seq<byte>)
    requires n <= MAX
    ensures var s := Header(n, seqno) + more; |s| >= 4 && GetUint24(s[..3]) == n && s[3] == seqno && s[4..] == more
  {
    var s := Header(n, seqno) + more;
    assert s[..3] == PutUint24(n);
    Uint24RoundTrip(n, PutUint24(n));
  }

  /** A frame at the start of a stream: its header and its body. */
  lemma FrameRead(n: nat, seqno: byte, body: seq<byte>, more: seq<byte>)
    requires n <= MAX && |body| == n
    ensures var s := Header(n, seqno) + body + more;
      |s| >= 4 + n && GetUint24(s[..3]) == n && s[3] == seqno && s[4..4 + n] == body && s[4 + n..] == more
  {
    hide GetUint24, PutUint24;
    var s := Header(n, seqno) + body + more;
    assert s == Header(n, seqno) + (body + more);
    HeaderRead(n, seqno, body + more);
  }

  /** One turn of the reading loop on a frame with the expected number. */
  lemma ParseFrame(n: nat, seqno: byte, body: seq<byte>, more: seq<byte>, prev: seq<byte>, started: bool, compressed: bool)
    requires n <= MAX && |body| == n
    ensures var p := Parse(Header(n, seqno) + body + more, seqno, prev, started, false, compressed);
      p == if n == 0 then (if started then Packet(prev, more, Next(seqno)) else Failed(InvalidConn))
           else if n < MAX then Packet(prev + body, more, Next(seqno))
           else Parse(more, Next(seqno), prev + body, true, false, compressed)
  {
    hide GetUint24, PutUint24, Header;
    FrameRead(n, seqno, body, more);
    if n == 0 { assert (Header(n, seqno) + body + more)[4..] == more; }
  }

  /** Reading what was written gives back the payload, consumes exactly the frames and leaves the
      reader expecting the writer's next sequence number; exact multiples of 2^24-1 included. */
  lemma {:induction false} FramesParse(payload: seq<byte>, seqno: byte, rest: seq<byte>, prev: seq<byte>, started: bool, compressed: bool)
    requires |payload| > 0 || started
    ensures Parse(Frames(payload, seqno) + rest, seqno, prev, started, false, compressed)
      == Packet(prev + payload, rest, LastNext(payload, seqno))
    decreases |payload|
  {
    hide Header, Parse;
    if |payload| < MAX {
      ParseFrame(|payload|, seqno, payload, rest, prev, started, compressed);
      if |payload| == 0 { assert prev + payload == prev; }
    } else {
      var head, tail := payload[..MAX], payload[MAX..];
      var more := Frames(tail, Next(seqno)) + rest;
      assert Frames(payload, seqno) + rest == Header(MAX, seqno) + head + more;
      ParseFrame(MAX, seqno, head, more, prev, started, compressed);
      FramesParse(tail, Next(seqno), rest, prev + head, true, compressed);
      assert prev + head + tail == prev + payload by { assert head + tail == payload; }
    }
  }

  /** The one payload that does not survive: an empty first frame is taken for a malformed packet. */
  lemma EmptyPayloadRefused(seqno: byte, rest: seq<byte>)
    ensures Parse(Frames([], seqno) + rest, seqno, [], false, false, false) == Failed(InvalidConn)
  {
    hide PutUint24, GetUint24, Header;
    assert Frames([], seqno) + rest == Header(0, seqno) + rest;
    HeaderRead(0, seqno, rest);
  }

  /** writePacket followed by readPacket, for every nonempty payload and every starting sequence. */
  lemma RoundTrip(payload: seq<byte>, seqno: byte, rest: seq<byte>)
    requires |payload| > 0
    ensures Parse(Frames(payload, seqno) + rest, seqno, [], false, false, false)
      == Packet(payload, rest, (seqno + |payload| / MAX + 1) % 256)
  {
    hide Frames, Parse, LastNext;
    FramesParse(payload, seqno, rest, [], false, false);
    LastNextCounts(payload, seqno);
    assert [] + payload == payload;
  }

  /** A single packet sent with a wrong number is refused unless it is an error packet. */
  lemma WrongSequence(payload: seq<byte>, sent: byte, expected: byte, rest: seq<byte>)
    requires 0 < |payload| < MAX && sent != expected
    ensures Parse(Frames(payload, sent) + rest, expected, [], false, false, false)
      == if payload[0] == ERR then Packet(payload, rest, Next(sent)) else Failed(PktSync)
  {
    hide PutUint24, GetUint24, Header;
    FrameRead(|payload|, sent, payload, rest);
    assert [] + payload == payload;
  }

  /** A second frame with a wrong number is fatal, whatever it holds. */
  lemma WrongSequenceInside(payload: seq<byte>, seqno: byte, sent: byte, rest: seq<byte>)
    requires |payload| >= MAX && sent != Next(seqno)
    ensures Parse(Header(MAX, seqno) + payload[..MAX] + (Frames(payload[MAX..], sent) + rest), seqno, [], false, false, false)
      == Failed(PktSyncMul)
  {
    hide PutUint24, GetUint24, Header, Frames;
    var tail := Frames(payload[MAX..], sent) + rest;
    ParseFrame(MAX, seqno, payload[..MAX], tail, [], false, false);
    FirstFrame(payload[MAX..], sent);
    assert tail[3] == sent;
  }

  /** A stream that ends inside a packet, at whatever byte, is refused. */
  lemma {:induction false} TruncatedRefused(payload: seq<byte>, seqno: byte, k: nat, prev: seq<byte>, started: bool, compressed: bool)
    requires (|payload| > 0 || started) && k < |Frames(payload, seqno)|
    ensures Parse(Frames(payload, seqno)[..k], seqno, prev, started, false, compressed) == Failed(InvalidConn)
    decreases |payload|
  {
    hide Header, Frames, Begins, PutUint24, LittleEndian;
    var n := if |payload| < MAX then |payload| else MAX;
    var all := Frames(payload, seqno);
    FirstFrame(payload, seqno);
    if 4 <= k < 4 + n {
      HeaderOf(all, n, seqno, k);
    } else if 4 + n <= k {
      OnlyFrame(payload, seqno);
      MoreFrames(payload, seqno);
      var tail := Frames(payload[MAX..], Next(seqno));
      var more := tail[..k - 4 - MAX];
      assert all[..k] == Header(MAX, seqno) + payload[..MAX] + more;
      ParseFrame(MAX, seqno, payload[..MAX], more, prev, started, compressed);
      TruncatedRefused(payload[MAX..], Next(seqno), k - 4 - MAX, prev + payload[..MAX], true, compressed);
    }
  }

  lemma OnlyFrame(payload: seq<byte>, seqno: byte)
    ensures |payload| < MAX ==> |Frames(payload, seqno)| == 4 + |payload|
  {
  }

  lemma HeaderOf(all: seq<byte>, n: nat, seqno: byte, k: nat)
    requires Begins(all, n, seqno) && 4 <= k <= |all|
    ensures GetUint24(all[..k][..3]) == n && all[..k][3] == seqno
  {
    assert all[..k][..3] == all[..3];
    Uint24IsLittleEndian(0, all[..3]);
  }
}
