/**
 Message framing (src/message.c) over a byte stream. A message is a 16-byte header (type, padding,
 size) and its payload. The environment decides how much of each write and read goes through: `pieces`
 scripts the payload calls, `headers` the header calls, and a nonpositive entry is a failing call.
 A running-out script is a connection that has failed.
 */
module Framing {
  import opened Bytes

  const HEADER: nat := 16

  /** message_info_t. */
  datatype Info = Info(kind: Byte, size: nat)

  type Padding = p: seq<Byte> | |p| == 7
    witness [0, 0, 0, 0, 0, 0, 0]

  datatype Message = Message(kind: Byte, payload: seq<Byte>, pad: Padding)

  function HeaderBytes(info: Info, pad: Padding): (h: seq<Byte>)
    ensures |h| == HEADER
  {
    [info.kind] + pad + ToLe(info.size, 8)
  }

  function ParseHeader(h: seq<Byte>): Info
    requires |h| == HEADER
  {
    Info(h[0], FromLe(h[8..]))
  }

  /** A header byte by byte: the type, seven bytes of padding, the size least significant byte first. */
  lemma HeaderLayout(info: Info, pad: Padding)
    requires info.size < Pow256(8)
    ensures var h := HeaderBytes(info, pad);
            && h[0] == info.kind && h[1..8] == pad && FromLe(h[8..16]) == info.size
            && (info.size < 0x1_0000 ==> h[8] + 0x100 * (h[9] as int) == info.size)
  {
    var h := HeaderBytes(info, pad);
    assert h[8..16] == ToLe(info.size, 8);
    LeDecodesEncoding(info.size, 8);
    LowBytes(h[8..16]);
  }

  lemma LowBytes(s: seq<Byte>)
    requires |s| > 2
    ensures FromLe(s) < 0x1_0000 ==> FromLe(s) == s[0] + 0x100 * (s[1] as int)
  {
    assert FromLe(s) == s[0] + 0x100 * FromLe(s[1..]);
    assert FromLe(s[1..]) == s[1] + 0x100 * FromLe(s[1..][1..]);
  }

  /** Sizes are 64-bit words. */
  predicate SizeFits(m: Message) {
    |m.payload| < Pow256(8)
  }

  function Frame(m: Message): (f: seq<Byte>)
    ensures |f| == HEADER + |m.payload|
  {
    HeaderBytes(Info(m.kind, |m.payload|), m.pad) + m.payload
  }

  function Frames(ms: seq<Message>): seq<Byte> {
    if ms == [] then [] else Frame(ms[0]) + Frames(ms[1..])
  }

  /** What the next message on a stream is, once its bytes are all there. */
  ghost predicate NextIs(stream: seq<Byte>, info: Info) {
    |stream| >= HEADER && ParseHeader(stream[..HEADER]) == info && HEADER + info.size <= |stream|
  }

  lemma FramesStartWithFirst(ms: seq<Message>)
    requires ms != [] && SizeFits(ms[0])
    ensures NextIs(Frames(ms), Info(ms[0].kind, |ms[0].payload|))
    ensures Frames(ms)[HEADER..HEADER + |ms[0].payload|] == ms[0].payload
    ensures Frames(ms)[HEADER + |ms[0].payload|..] == Frames(ms[1..])
  {
    var info := Info(ms[0].kind, |ms[0].payload|);
    var h := HeaderBytes(info, ms[0].pad);
    assert Frames(ms) == h + (ms[0].payload + Frames(ms[1..]));
    assert Frames(ms)[..HEADER] == h;
    assert h[8..] == ToLe(info.size, 8);
    LeDecodesEncoding(info.size, 8);
  }

  // ---------- A connection ----------

  /** The environment's next choice; a script that has run out fails. */
  function Head(script: seq<int>): int {
    if script == [] then -1 else script[0]
  }

  function Tail(script: seq<int>): seq<int> {
    if script == [] then [] else script[1..]
  }

  /** What a call for n bytes returns: no more than n, and nothing positive when it fails. */
  function Grant(choice: int, n: nat): (rc: int)
    ensures rc <= n && (choice <= n ==> rc == choice) && (choice > n ==> rc == n)
  {
    if choice > n then n else choice
  }

  function Got(rc: int): (n: nat)
    ensures rc >= 0 ==> n == rc
  {
    if rc > 0 then rc else 0
  }

  /** The next n header calls pass whole headers. */
  ghost predicate HeadersPass(headers: seq<int>, n: nat) {
    |headers| >= n && forall k :: 0 <= k < |headers| ==> headers[k] >= HEADER
  }

  /** The environment splits n payload bytes in any way at all into positive pieces. */
  ghost predicate PiecesPass(pieces: seq<int>, n: int) {
    |pieces| >= n && forall k :: 0 <= k < |pieces| ==> pieces[k] > 0
  }

  class Socket {
    var stream: seq<Byte>
    var headers: seq<int>
    var pieces: seq<int>

    constructor (stream: seq<Byte>, headers: seq<int>, pieces: seq<int>)
      ensures this.stream == stream && this.headers == headers && this.pieces == pieces
    {
      this.stream, this.headers, this.pieces := stream, headers, pieces;
    }

    method WriteHeader(bytes: seq<Byte>) returns (rc: int)
      modifies `stream, `headers
      ensures rc == Grant(Head(old(headers)), |bytes|) && headers == Tail(old(headers))
      ensures stream == old(stream) + bytes[..Got(rc)]
    {
      rc := Grant(Head(headers), |bytes|);
      headers := Tail(headers);
      stream := stream + bytes[..Got(rc)];
    }

    method WritePiece(bytes: seq<Byte>) returns (rc: int)
      modifies `stream, `pieces
      ensures rc == Grant(Head(old(pieces)), |bytes|) && pieces == Tail(old(pieces))
      ensures stream == old(stream) + bytes[..Got(rc)]
    {
      rc := Grant(Head(pieces), |bytes|);
      pieces := Tail(pieces);
      stream := stream + bytes[..Got(rc)];
    }

    /** MSG_PEEK leaves the bytes in the stream; an empty stream is a closed connection. */
    method PeekHeader() returns (rc: int, bytes: seq<Byte>)
      modifies `headers
      ensures stream == [] ==> rc == 0 && headers == old(headers)
      ensures stream != [] ==>
                rc == Grant(Head(old(headers)), Smaller(HEADER, |stream|)) && headers == Tail(old(headers))
      ensures bytes == stream[..Got(rc)]
    {
      if stream == [] {
        return 0, [];
      }
      rc := Grant(Head(headers), Smaller(HEADER, |stream|));
      headers := Tail(headers);
      bytes := stream[..Got(rc)];
    }

    method ReadHeader() returns (rc: int, bytes: seq<Byte>)
      modifies `stream, `headers
      ensures rc == Grant(Head(old(headers)), Smaller(HEADER, |old(stream)|)) && headers == Tail(old(headers))
      ensures bytes == old(stream)[..Got(rc)] && stream == old(stream)[Got(rc)..]
    {
      rc := Grant(Head(headers), Smaller(HEADER, |stream|));
      headers := Tail(headers);
      bytes, stream := stream[..Got(rc)], stream[Got(rc)..];
    }

    method ReadPiece(n: nat) returns (rc: int, bytes: seq<Byte>)
      modifies `stream, `pieces
      ensures rc == Grant(Head(old(pieces)), Smaller(n, |old(stream)|)) && pieces == Tail(old(pieces))
      ensures bytes == old(stream)[..Got(rc)] && stream == old(stream)[Got(rc)..]
    {
      rc := Grant(Head(pieces), Smaller(n, |stream|));
      pieces := Tail(pieces);
      bytes, stream := stream[..Got(rc)], stream[Got(rc)..];
    }
  }

  function Smaller(a: nat, b: nat): nat {
    if a <= b then a else b
  }

  /** A call for n > 0 bytes gets some, and leaves pieces enough for the rest. */
  lemma PieceTaken(pieces: seq<int>, n: int, available: nat)
    ensures n > 0 && PiecesPass(pieces, n) && available > 0 ==>
              var rc := Grant(Head(pieces), available);
              rc > 0 && (rc <= n ==> PiecesPass(Tail(pieces), n - rc))
  {}

  // ---------- Sending ----------

  /**
   send_message: success means the whole frame went out, failure a proper prefix of it. Without data
   only the header is sent.
   */
  method SendMessage(sock: Socket, info: Info, pad: Padding, data: Option<seq<Byte>>, ghost budget: nat)
    returns (ok: bool)
    requires data.Some? ==> info.size <= |data.value|
    modifies sock
    ensures old(sock.stream) <= sock.stream
    ensures var frame := HeaderBytes(info, pad) + if data.Some? then data.value[..info.size] else [];
            var sent := sock.stream[|old(sock.stream)|..];
            sent <= frame && (ok <==> sent == frame)
    ensures info.size <= budget && PiecesPass(old(sock.pieces), budget) ==>
              PiecesPass(sock.pieces, budget - info.size) && (Head(old(sock.headers)) >= HEADER ==> ok)
    ensures sock.headers == Tail(old(sock.headers))
  {
    hide PiecesPass, HeaderBytes;
    ghost var before := sock.stream;
    LeftoverPieces(sock.pieces, budget, budget - info.size);
    var header := HeaderBytes(info, pad);
    var sent := sock.WriteHeader(header);
    assert sock.stream[|before|..] == header[..Got(sent)];
    if sent != HEADER {
      return false;
    }
    if data.Some? {
      var written := 0;
      while written < info.size
        invariant 0 <= written <= info.size && sock.headers == Tail(old(sock.headers))
        invariant before <= sock.stream && sock.stream[|before|..] == header + data.value[..written]
        invariant info.size <= budget && PiecesPass(old(sock.pieces), budget) ==>
                    PiecesPass(sock.pieces, budget - written)
      {
        PieceTaken(sock.pieces, budget - written, info.size - written);
        var rc := sock.WritePiece(data.value[written..info.size]);
        assert data.value[..written] + data.value[written..info.size][..Got(rc)] == data.value[..written + Got(rc)];
        if rc <= 0 {
          return false;
        }
        written := written + rc;
      }
    }
    ok := true;
  }

  // ---------- Receiving ----------

  datatype Status = Received | Failed | Hung

  /**
   receive_message, with the test of its discard loop read as `<`. Up to `size` payload bytes go to
   the buffer (none when there is no buffer); the rest of the payload is dropped. It fails if a call fails
   before the caller's part is read; a failing recv in the discard loop is retried for ever: Hung.
   */
  method ReceiveMessage(sock: Socket, buffer: array?<Byte>, size: nat) returns (status: Status)
    requires buffer != null ==> size <= buffer.Length
    modifies sock, buffer
    ensures |sock.stream| <= |old(sock.stream)|
    ensures sock.headers == Tail(old(sock.headers))
    ensures var taken := |old(sock.stream)| - |sock.stream|;
            && (!status.Failed? ==> taken >= HEADER)
            && (taken >= HEADER ==>
                  var info := ParseHeader(old(sock.stream)[..HEADER]);
                  var wanted := if buffer == null then 0 else Smaller(size, info.size);
                  && (status.Failed? <==> taken < HEADER + wanted)
                  && (status.Hung? <==> HEADER + wanted <= taken < HEADER + info.size))
    ensures status.Received? ==> |old(sock.stream)| >= HEADER
    ensures status.Received? ==>
              var info := ParseHeader(old(sock.stream)[..HEADER]);
              && NextIs(old(sock.stream), info)
              && sock.stream == old(sock.stream)[HEADER + info.size..]
              && (PiecesPass(old(sock.pieces), |old(sock.stream)|) ==> PiecesPass(sock.pieces, |sock.stream|))
    ensures status.Received? && buffer != null ==>
              var n := Smaller(size, ParseHeader(old(sock.stream)[..HEADER]).size);
              && buffer[..n] == old(sock.stream)[HEADER..HEADER + n]
              && buffer[n..] == old(buffer[..])[n..]
    ensures forall info | NextIs(old(sock.stream), info) :: Head(old(sock.headers)) >= HEADER ==>
              PiecesPass(old(sock.pieces), info.size) ==> status.Received?
  {
    hide PiecesPass, ParseHeader;
    ghost var before, pieces := sock.stream, sock.pieces;
    var got, header := sock.ReadHeader();
    if got != HEADER {
      return Failed;
    }
    var info := ParseHeader(header);
    var wanted := if buffer == null then 0 else Smaller(size, info.size);
    ghost var budget := if PiecesPass(pieces, |before|) then |before| else info.size;
    var ok := true;
    if buffer != null {
      ok := ReadPayload(sock, buffer, wanted, budget);
    }
    if !ok {
      return Failed;
    }
    var extra := info.size - wanted;
    if extra != 0 {
      ok := Discard(sock, extra, budget - wanted);
      if !ok {
        return Hung;
      }
    }
    LeftoverPieces(sock.pieces, budget - info.size, |sock.stream|);
    status := Received;
  }

  lemma LeftoverPieces(pieces: seq<int>, n: int, m: int)
    ensures 0 <= m <= n && PiecesPass(pieces, n) ==> PiecesPass(pieces, m)
  {}

  /** The reading loop: fills the first `wanted` places of the buffer from the stream. */
  method ReadPayload(sock: Socket, buffer: array<Byte>, wanted: nat, ghost budget: nat) returns (ok: bool)
    requires wanted <= buffer.Length
    modifies sock`stream, sock`pieces, buffer
    ensures |sock.stream| <= |old(sock.stream)|
    ensures ok ==> wanted <= |old(sock.stream)| && sock.stream == old(sock.stream)[wanted..]
    ensures ok ==> buffer[..] == old(sock.stream)[..wanted] + old(buffer[..])[wanted..]
    ensures !ok ==> |old(sock.stream)| - |sock.stream| < wanted
    ensures wanted <= budget && PiecesPass(old(sock.pieces), budget) ==>
              (ok ==> PiecesPass(sock.pieces, budget - wanted)) && (wanted <= |old(sock.stream)| ==> ok)
  {
    hide PiecesPass;
    ghost var before, pieces := sock.stream, sock.pieces;
    ghost var wasIn := buffer[..];
    var read := 0;
    ok := true;
    while read < wanted
      invariant 0 <= read <= wanted && read <= |before| && sock.stream == before[read..]
      invariant wanted <= budget && PiecesPass(pieces, budget) ==> PiecesPass(sock.pieces, budget - read)
      invariant forall k :: 0 <= k < read ==> buffer[k] == before[k]
      invariant forall k :: read <= k < buffer.Length ==> buffer[k] == wasIn[k]
    {
      var rc := ReadInto(sock, buffer, read, wanted - read, budget - read);
      if rc <= 0 {
        return false;
      }
      read := read + rc;
    }
  }

  /** One read, placed at position `at` of the buffer. */
  method ReadInto(sock: Socket, buffer: array<Byte>, at: nat, n: nat, ghost budget: int) returns (rc: int)
    requires at + n <= buffer.Length
    modifies sock`stream, sock`pieces, buffer
    ensures rc <= n && Got(rc) <= |old(sock.stream)| && sock.stream == old(sock.stream)[Got(rc)..]
    ensures forall k :: 0 <= k < Got(rc) ==> buffer[at + k] == old(sock.stream)[k]
    ensures forall k :: 0 <= k < buffer.Length && !(at <= k < at + Got(rc)) ==> buffer[k] == old(buffer[k])
    ensures 0 < n <= budget && PiecesPass(old(sock.pieces), budget) ==>
              (|old(sock.stream)| > 0 ==> rc > 0) && (rc > 0 ==> PiecesPass(sock.pieces, budget - rc))
  {
    hide PiecesPass;
    PieceTaken(sock.pieces, budget, Smaller(n, |sock.stream|));
    var bytes;
    rc, bytes := sock.ReadPiece(n);
    forall k | 0 <= k < |bytes| {
      buffer[at + k] := bytes[k];
    }
    assert forall k :: 0 <= k < Got(rc) ==> buffer[at + k] == bytes[k];
  }

  /** The discard loop, with `<`: drops exactly `extra` bytes. */
  method Discard(sock: Socket, extra: nat, ghost budget: nat) returns (ok: bool)
    modifies sock`stream, sock`pieces
    ensures |sock.stream| <= |old(sock.stream)|
    ensures ok ==> extra <= |old(sock.stream)| && sock.stream == old(sock.stream)[extra..]
    ensures !ok ==> |old(sock.stream)| - |sock.stream| < extra
    ensures extra <= budget && PiecesPass(old(sock.pieces), budget) ==>
              (ok ==> PiecesPass(sock.pieces, budget - extra)) && (extra <= |old(sock.stream)| ==> ok)
  {
    hide PiecesPass;
    ghost var before, pieces := sock.stream, sock.pieces;
    var discarded := 0;
    ok := true;
    while discarded < extra
      invariant 0 <= discarded <= extra && discarded <= |before| && sock.stream == before[discarded..]
      invariant extra <= budget && PiecesPass(pieces, budget) ==> PiecesPass(sock.pieces, budget - discarded)
    {
      PieceTaken(sock.pieces, budget - discarded, Smaller(extra - discarded, |sock.stream|));
      var rc, _ := sock.ReadPiece(extra - discarded);
      if rc <= 0 {
        return false;
      }
      discarded := discarded + rc;
    }
  }

  /**
   Whether the discard loop is ever left, given what each recv offers: as written the test is
   `bytes_discarded <= extra_data`, repaired it is `<`.
   */
  predicate LeavesLoop(asWritten: bool, extra: nat, discarded: int, replies: seq<int>)
    decreases |replies|
  {
    if discarded > extra || (discarded == extra && !asWritten) then true
    else
      && replies != []
      && LeavesLoop(asWritten, extra, discarded + Grant(replies[0], extra - discarded), replies[1..])
  }

  lemma {:induction false} LoopAsWrittenGoesOn(extra: nat, discarded: int, replies: seq<int>)
    requires discarded <= extra
    ensures !LeavesLoop(true, extra, discarded, replies)
    decreases |replies|
  {
    if replies != [] {
      LoopAsWrittenGoesOn(extra, discarded + Grant(replies[0], extra - discarded), replies[1..]);
    }
  }

  /** Repaired, the loop is left once the replies, each of at least one byte, are as many as the bytes. */
  lemma {:induction false} RepairedLoopEnds(extra: nat, discarded: nat, replies: seq<int>)
    requires discarded <= extra && |replies| >= extra - discarded
    requires forall k :: 0 <= k < |replies| ==> replies[k] > 0
    ensures LeavesLoop(false, extra, discarded, replies)
    decreases |replies|
  {
    if discarded < extra {
      RepairedLoopEnds(extra, discarded + Grant(replies[0], extra - discarded), replies[1..]);
    }
  }

  /** Whether receive_message as written returns once the caller's part of the payload is read. */
  predicate ReturnsAsWritten(infoSize: nat, size: nat, replies: seq<int>) {
    var extra := infoSize - Smaller(size, infoSize);
    extra == 0 || LeavesLoop(true, extra, 0, replies)
  }

  /**
   As written, it returns exactly when the caller takes the whole payload: otherwise, once all extra
   bytes are gone, recv for 0 bytes returns 0 for ever.
   */
  lemma ReturnsIffAllTaken(infoSize: nat, size: nat, replies: seq<int>)
    ensures ReturnsAsWritten(infoSize, size, replies) <==> size >= infoSize
  {
    LoopAsWrittenGoesOn(infoSize - Smaller(size, infoSize), 0, replies);
  }

  // ---------- Whole runs ----------

  /** The size of readWorker's buffer (src/client.c:426). */
  const BUFFER: nat := 100000

  type Content = (Byte, seq<Byte>)

  function Contents(ms: seq<Message>): (cs: seq<Content>)
    ensures |cs| == |ms| && forall k :: 0 <= k < |ms| ==> cs[k] == (ms[k].kind, ms[k].payload)
  {
    seq(|ms|, k requires 0 <= k < |ms| => (ms[k].kind, ms[k].payload))
  }

  ghost predicate AllFit(ms: seq<Message>) {
    forall k :: 0 <= k < |ms| ==> SizeFits(ms[k])
  }

  datatype End = Closed | Broken | Overrun

  /** Sends messages one after the other; success leaves exactly their frames on the stream. */
  method SendAll(sock: Socket, ms: seq<Message>) returns (ok: bool)
    modifies sock
    ensures ok ==> sock.stream == old(sock.stream) + Frames(ms)
    ensures HeadersPass(old(sock.headers), |ms|) && PiecesPass(old(sock.pieces), |Frames(ms)|) ==> ok
  {
    hide PiecesPass, HeadersPass, Frame, Frames;
    ghost var before := sock.stream;
    ghost var willing := HeadersPass(sock.headers, |ms|) && PiecesPass(sock.pieces, |Frames(ms)|);
    ok := true;
    for k := 0 to |ms|
      invariant sock.stream + Frames(ms[k..]) == before + Frames(ms)
      invariant willing ==> HeadersPass(sock.headers, |ms| - k) && PiecesPass(sock.pieces, |Frames(ms[k..])|)
    {
      FramesFrom(ms, k);
      HeadersPassOn(sock.headers, |ms| - k);
      var sent := SendFrame(sock, ms[k], |Frames(ms[k..])|);
      if !sent {
        return false;
      }
    }
    FramesOfNone(ms[|ms|..]);
  }

  method SendFrame(sock: Socket, m: Message, ghost budget: nat) returns (ok: bool)
    modifies sock
    ensures ok ==> sock.stream == old(sock.stream) + Frame(m)
    ensures sock.headers == Tail(old(sock.headers))
    ensures |Frame(m)| <= budget && PiecesPass(old(sock.pieces), budget) ==>
              PiecesPass(sock.pieces, budget - |Frame(m)|) && (Head(old(sock.headers)) >= HEADER ==> ok)
  {
    hide PiecesPass;
    ghost var was := sock.stream;
    ok := SendMessage(sock, Info(m.kind, |m.payload|), m.pad, Some(m.payload), budget);
    LeftoverPieces(sock.pieces, budget - |m.payload|, budget - |Frame(m)|);
    assert m.payload[..|m.payload|] == m.payload;
    assert ok ==> sock.stream == was + sock.stream[|was|..];
  }

  lemma FramesFrom(ms: seq<Message>, k: nat)
    requires k < |ms|
    ensures Frames(ms[k..]) == Frame(ms[k]) + Frames(ms[k + 1..])
  {
    assert ms[k..][1..] == ms[k + 1..];
  }

  lemma FramesOfNone(ms: seq<Message>)
    requires ms == []
    ensures Frames(ms) == []
  {}

  lemma HeadersPassOn(headers: seq<int>, n: nat)
    requires n > 0
    ensures HeadersPass(headers, n) ==> Head(headers) >= HEADER && HeadersPass(Tail(headers), n - 1)
  {}

  /** One turn of readWorker's loop, when `left` has yet to be read: peek at the header, then receive. */
  method ReadOne(sock: Socket, buffer: array<Byte>, ghost left: seq<Message>)
    returns (got: Option<Content>, end: End)
    requires sock.stream == Frames(left) && AllFit(left) && buffer.Length == BUFFER
    modifies sock, buffer
    ensures got.Some? ==> left != [] && got.value == (left[0].kind, left[0].payload) && |got.value.1| <= BUFFER
    ensures got.Some? ==> sock.stream == Frames(left[1..])
    ensures got.None? ==> end.Closed? ==> left == [] && sock.stream == []
    ensures got.None? ==> end.Overrun? ==> left != [] && |left[0].payload| > BUFFER
    ensures HeadersPass(old(sock.headers), |old(sock.stream)|) && PiecesPass(old(sock.pieces), |old(sock.stream)|) ==>
              && (got.None? ==> !end.Broken?)
              && (got.Some? ==> HeadersPass(sock.headers, |sock.stream|) && PiecesPass(sock.pieces, |sock.stream|))
  {
    hide PiecesPass, HeadersPass, ParseHeader, Frame, Frames, SizeFits, NextIs;
    got, end := None, Broken;
    FramesNonempty(left);
    HeaderCalls(sock.headers, |sock.stream|, 0);
    if left != [] {
      FrameIsLong(left);
    } else {
      FramesOfNone(left);
    }
    ghost var headers, available := sock.headers, |sock.stream|;
    var seen, header := sock.PeekHeader();
    if seen != HEADER {
      end := if seen == 0 && sock.stream == [] then Closed else Broken;
      return;
    }
    FramesStartWithFirst(left);
    var info := ParseHeader(header);
    NextIsUnique(sock.stream, Info(left[0].kind, |left[0].payload|));
    if info.size > BUFFER {
      end := Overrun;
      return;
    }
    HeaderCalls(headers, available, available - HEADER - info.size);
    LeftoverPieces(sock.pieces, |sock.stream|, info.size);
    var status := ReceiveMessage(sock, buffer, info.size);
    if status.Received? {
      assert buffer[..info.size] == left[0].payload;
      got := Some((info.kind, buffer[..info.size]));
    }
  }

  /**
   The reading side of readWorker: peek at the next header, receive that many bytes, hand the message
   on. It stops when the connection is closed or fails, or when a payload exceeds its buffer.
   */
  method ReadMessages(sock: Socket, ghost ms: seq<Message>) returns (out: seq<Content>, end: End)
    requires sock.stream == Frames(ms) && AllFit(ms)
    modifies sock
    ensures out <= Contents(ms)
    ensures end.Closed? ==> out == Contents(ms) && sock.stream == []
    ensures forall k :: 0 <= k < |out| ==> |out[k].1| <= BUFFER
    ensures end.Overrun? ==> |out| < |ms| && |ms[|out|].payload| > BUFFER
    ensures HeadersPass(old(sock.headers), |old(sock.stream)|) ==>
              PiecesPass(old(sock.pieces), |old(sock.stream)|) ==> !end.Broken?
  {
    hide PiecesPass, HeadersPass, Frames, SizeFits;
    ghost var willing := HeadersPass(sock.headers, |sock.stream|) && PiecesPass(sock.pieces, |sock.stream|);
    var buffer := new Byte[BUFFER];
    out := [];
    while true
      invariant |out| <= |ms| && out == Contents(ms)[..|out|]
      invariant forall k :: 0 <= k < |out| ==> |out[k].1| <= BUFFER
      invariant sock.stream == Frames(ms[|out|..])
      invariant willing ==> HeadersPass(sock.headers, |sock.stream|) && PiecesPass(sock.pieces, |sock.stream|)
      decreases |ms| - |out|
    {
      ghost var left := ms[|out|..];
      var got;
      got, end := ReadOne(sock, buffer, left);
      if got.None? {
        return;
      }
      assert left[1..] == ms[|out| + 1..];
      out := out + [got.value];
    }
  }

  /** Peeking at a header and reading it uses up two of the header calls its sixteen bytes allow. */
  lemma HeaderCalls(headers: seq<int>, n: nat, rest: nat)
    ensures n > 0 && HeadersPass(headers, n) ==> Head(headers) >= HEADER
    ensures n >= HEADER + rest && HeadersPass(headers, n) ==>
              Head(Tail(headers)) >= HEADER && HeadersPass(Tail(Tail(headers)), rest)
  {}

  lemma FramesNonempty(ms: seq<Message>)
    ensures Frames(ms) != [] ==> ms != []
  {}

  lemma FrameIsLong(ms: seq<Message>)
    requires ms != []
    ensures |Frames(ms)| >= HEADER
  {}

  lemma NextIsUnique(stream: seq<Byte>, info: Info)
    requires NextIs(stream, info)
    ensures |stream| >= HEADER + info.size && ParseHeader(stream[..HEADER]) == info
  {}

  /**
   Framing over whole runs: what the reader gets out is always an initial part of what was sent. When
   no call fails outright, however the payload calls split the bytes, it is all of it exactly if each
   payload fits the buffer.
   */
  method Transmit(ms: seq<Message>, sending: (seq<int>, seq<int>), receiving: (seq<int>, seq<int>))
    returns (sent: bool, out: seq<Content>, end: End)
    requires AllFit(ms)
    ensures sent ==> out <= Contents(ms)
    ensures sent && end.Closed? ==> out == Contents(ms)
    ensures HeadersPass(sending.0, |ms|) && PiecesPass(sending.1, |Frames(ms)|) ==> sent
    ensures sent && HeadersPass(receiving.0, |Frames(ms)|) && PiecesPass(receiving.1, |Frames(ms)|) ==>
              ((forall k :: 0 <= k < |ms| ==> |ms[k].payload| <= BUFFER) <==> out == Contents(ms))
  {
    hide PiecesPass, Frame, SizeFits;
    out, end := [], Broken;
    var outgoing := new Socket([], sending.0, sending.1);
    sent := SendAll(outgoing, ms);
    if sent {
      var incoming := new Socket(outgoing.stream, receiving.0, receiving.1);
      out, end := ReadMessages(incoming, ms);
    }
  }
}
