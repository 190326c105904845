/** The binary audio frames of the live session: the client's framing loop, the 18-byte
    big-endian header (">BBIdI") and the server's acceptance rules. The capture timestamp's
    eight bytes are carried unread. */
module AudioFrames {

  import opened Options

  type Byte = n: int | 0 <= n < 0x100
  type U32 = n: int | 0 <= n < 0x1_0000_0000
  type Stamp = s: seq<Byte> | |s| == 8 witness [0, 0, 0, 0, 0, 0, 0, 0]

  const HEADER_SIZE := 18
  const FRAME_SIZE := 640
  const MAX_PAYLOAD := 1024 * 1024
  const MAX_FRAMES := 0x1_0000_0000

  datatype Header = Header(version: Byte, kind: Byte, sequence: U32, captured: Stamp, length: U32)

  // ----- the header codec -----

  function PackU32(n: U32): (b: seq<Byte>)
    ensures |b| == 4
  {
    [n / 0x100_0000, n / 0x1_0000 % 0x100, n / 0x100 % 0x100, n % 0x100]
  }

  function UnpackU32(b: seq<Byte>): U32
    requires |b| == 4
  {
    var (b0: int, b1: int, b2: int, b3: int) := (b[0], b[1], b[2], b[3]);
    ((b0 * 0x100 + b1) * 0x100 + b2) * 0x100 + b3
  }

  function Pack(h: Header): (b: seq<Byte>)
    ensures |b| == HEADER_SIZE
  {
    [h.version, h.kind] + PackU32(h.sequence) + h.captured + PackU32(h.length)
  }

  function Unpack(b: seq<Byte>): Header
    requires |b| == HEADER_SIZE
  {
    Header(b[0], b[1], UnpackU32(b[2..6]), b[6..14], UnpackU32(b[14..]))
  }

  lemma U32RoundTrip(n: U32)
    ensures UnpackU32(PackU32(n)) == n
  {
    var (q1, q2, q3) := (n / 0x100, n / 0x1_0000, n / 0x100_0000);
    assert q2 == q1 / 0x100 && q3 == q2 / 0x100;
  }

  lemma U32BytesRoundTrip(b: seq<Byte>)
    requires |b| == 4
    ensures PackU32(UnpackU32(b)) == b
  {
    var n := UnpackU32(b);
    var (b0: int, b1: int, b2: int) := (b[0], b[1], b[2]);
    var q1 := n / 0x100;
    assert q1 == (b0 * 0x100 + b1) * 0x100 + b2;
    assert n / 0x1_0000 == q1 / 0x100 == b0 * 0x100 + b1;
    assert n / 0x100_0000 == (b0 * 0x100 + b1) / 0x100 == b0;
  }

  lemma HeaderRoundTrip(h: Header)
    ensures Unpack(Pack(h)) == h
  {
    var b := Pack(h);
    assert b[2..6] == PackU32(h.sequence) && b[6..14] == h.captured && b[14..] == PackU32(h.length);
    U32RoundTrip(h.sequence);
    U32RoundTrip(h.length);
  }

  lemma BytesRoundTrip(b: seq<Byte>)
    requires |b| == HEADER_SIZE
    ensures Pack(Unpack(b)) == b
  {
    U32BytesRoundTrip(b[2..6]);
    U32BytesRoundTrip(b[14..]);
    assert b == [b[0], b[1]] + b[2..6] + b[6..14] + b[14..];
  }

  function BigEndian(b0: int, b1: int, b2: int, b3: int): int {
    b0 * 16777216 + b1 * 65536 + b2 * 256 + b3
  }

  /** The layout in bytes: version, kind, then the number, the timestamp and the length, the integers
      with their most significant byte first. */
  lemma HeaderLayout(b: seq<Byte>)
    requires |b| == 18
    ensures var h := Unpack(b);
            && h.version == b[0] && h.kind == b[1] && h.captured == b[6..14]
            && h.sequence == BigEndian(b[2], b[3], b[4], b[5])
            && h.length == BigEndian(b[14], b[15], b[16], b[17])
  {
  }

  // ----- the server -----

  datatype ErrorCode =
    | MalformedAudioFrame | UnsupportedProtocol | InvalidFrameType | OutOfOrderSequence | OversizedFrame

  datatype Verdict = Accepted(sequence: U32, pcm: seq<Byte>) | Rejected(code: ErrorCode)

  /** The receive loop's audio branch; `last` is the highest sequence number seen so far. */
  class Receiver {
    var last: Option<U32>

    constructor ()
      ensures last == None
    {
      last := None;
    }

    method Receive(raw: seq<Byte>) returns (v: Verdict)
      modifies this
      ensures v == Judge(old(last), raw) && last == Advance(old(last), raw)
    {
      if |raw| < HEADER_SIZE {
        return Rejected(MalformedAudioFrame);
      }
      var h := Unpack(raw[..HEADER_SIZE]);
      if h.version != 1 {
        return Rejected(UnsupportedProtocol);
      }
      if h.kind != 1 {
        return Rejected(InvalidFrameType);
      }
      if last.Some? && h.sequence <= last.value {
        return Rejected(OutOfOrderSequence);
      }
      last := Some(h.sequence);
      if h.length > MAX_PAYLOAD {
        return Rejected(OversizedFrame);
      }
      var pcm := raw[HEADER_SIZE..];
      if |pcm| != h.length {
        return Rejected(MalformedAudioFrame);
      }
      if |pcm| % 2 != 0 {
        return Rejected(MalformedAudioFrame);
      }
      v := Accepted(h.sequence, pcm);
    }
  }

  /** A version-1 audio frame, whatever its size: these are the ones that use up a number. */
  predicate Numbered(raw: seq<Byte>) {
    |raw| >= HEADER_SIZE && HeaderOf(raw).version == 1 && HeaderOf(raw).kind == 1
  }

  function HeaderOf(raw: seq<Byte>): Header
    requires |raw| >= HEADER_SIZE
  {
    Unpack(raw[..HEADER_SIZE])
  }

  predicate Fits(raw: seq<Byte>)
    requires |raw| >= HEADER_SIZE
  {
    HeaderOf(raw).length == |raw| - HEADER_SIZE <= MAX_PAYLOAD && (|raw| - HEADER_SIZE) % 2 == 0
  }

  function Judge(last: Option<U32>, raw: seq<Byte>): Verdict {
    if |raw| < HEADER_SIZE then Rejected(MalformedAudioFrame)
    else if HeaderOf(raw).version != 1 then Rejected(UnsupportedProtocol)
    else if HeaderOf(raw).kind != 1 then Rejected(InvalidFrameType)
    else if last.Some? && HeaderOf(raw).sequence <= last.value then Rejected(OutOfOrderSequence)
    else if HeaderOf(raw).length > MAX_PAYLOAD then Rejected(OversizedFrame)
    else if !Fits(raw) then Rejected(MalformedAudioFrame)
    else Accepted(HeaderOf(raw).sequence, raw[HEADER_SIZE..])
  }

  function Advance(last: Option<U32>, raw: seq<Byte>): Option<U32> {
    if Numbered(raw) && (last.Some? ==> last.value < HeaderOf(raw).sequence) then Some(HeaderOf(raw).sequence) else last
  }

  /** The receiver's memory after a stream of frames. */
  function LastAfter(frames: seq<seq<Byte>>): Option<U32> {
    if frames == [] then None else Advance(LastAfter(frames[..|frames| - 1]), frames[|frames| - 1])
  }

  /** The verdict on frame `i` of a stream. */
  function VerdictAt(frames: seq<seq<Byte>>, i: nat): Verdict
    requires i < |frames|
  {
    Judge(LastAfter(frames[..i]), frames[i])
  }

  lemma {:induction false} LastIsHighest(frames: seq<seq<Byte>>)
    ensures LastAfter(frames).None? ==> forall j :: 0 <= j < |frames| ==> !Numbered(frames[j])
    ensures LastAfter(frames).Some? ==>
              && (forall j :: 0 <= j < |frames| && Numbered(frames[j]) ==>
                    HeaderOf(frames[j]).sequence <= LastAfter(frames).value)
              && (exists j ::
                    0 <= j < |frames| && Numbered(frames[j]) && HeaderOf(frames[j]).sequence == LastAfter(frames).value)
    decreases |frames|
  {
    if frames == [] {
    } else {
      LastIsHighest(frames[..|frames| - 1]);
    }
  }

  /** A frame is accepted exactly when it is well formed and numbered above every earlier
      version-1 audio frame, accepted or not. */
  lemma AcceptedIff(frames: seq<seq<Byte>>, i: nat)
    requires i < |frames|
    ensures VerdictAt(frames, i).Accepted? <==>
            && Numbered(frames[i]) && Fits(frames[i])
            && forall j :: 0 <= j < i && Numbered(frames[j]) ==>
                 HeaderOf(frames[j]).sequence < HeaderOf(frames[i]).sequence
  {
    LastIsHighest(frames[..i]);
    assert forall j :: 0 <= j < i ==> frames[..i][j] == frames[j];
  }

  /** Whatever arrives, accepted numbers strictly increase and accepted payloads are whole
      16-bit samples of the declared length, at most a mebibyte. */
  lemma AcceptedFrames(frames: seq<seq<Byte>>, i: nat)
    requires i < |frames| && VerdictAt(frames, i).Accepted?
    ensures var pcm := VerdictAt(frames, i).pcm;
            && frames[i] == frames[i][..HEADER_SIZE] + pcm
            && |pcm| == HeaderOf(frames[i]).length <= MAX_PAYLOAD && |pcm| % 2 == 0
    ensures forall j :: 0 <= j < i && VerdictAt(frames, j).Accepted? ==>
              VerdictAt(frames, j).sequence < VerdictAt(frames, i).sequence
  {
    AcceptedIff(frames, i);
    forall j | 0 <= j < i && VerdictAt(frames, j).Accepted?
      ensures VerdictAt(frames, j).sequence < VerdictAt(frames, i).sequence
    {
      AcceptedIff(frames, j);
    }
  }

  /** The verdict on a frame in terms of its bytes, the first of the checks to fail naming the error. */
  lemma VerdictOnBytes(last: Option<U32>, raw: seq<Byte>)
    ensures |raw| < 18 ==> Judge(last, raw) == Rejected(MalformedAudioFrame) && Advance(last, raw) == last
    ensures |raw| >= 18 && raw[0] != 1 ==>
            Judge(last, raw) == Rejected(UnsupportedProtocol) && Advance(last, raw) == last
    ensures |raw| >= 18 && raw[0] == 1 && raw[1] != 1 ==>
              Judge(last, raw) == Rejected(InvalidFrameType) && Advance(last, raw) == last
    ensures |raw| >= 18 && raw[0] == raw[1] == 1 ==>
              var number := BigEndian(raw[2], raw[3], raw[4], raw[5]);
              var length := BigEndian(raw[14], raw[15], raw[16], raw[17]);
              var late := last.Some? && number <= last.value;
              && Judge(last, raw) == (if late then Rejected(OutOfOrderSequence)
                                      else if length > 1048576 then Rejected(OversizedFrame)
                                      else if length != |raw| - 18 || length % 2 == 1 then Rejected(MalformedAudioFrame)
                                      else Accepted(number, raw[18..]))
              && Advance(last, raw) == if late then last else Some(number)
  {
    if |raw| >= 18 {
      var b := raw[..18];
      HeaderLayout(b);
      assert b[0] == raw[0] && b[1] == raw[1];
      hide Unpack;
    }
  }

  // ----- the client, and the two together -----

  function Chunk(pcm: seq<Byte>, i: nat): seq<Byte>
    requires (i + 1) * FRAME_SIZE <= |pcm|
  {
    pcm[i * FRAME_SIZE..(i + 1) * FRAME_SIZE]
  }

  function ClientFrame(pcm: seq<Byte>, clock: nat -> Stamp, i: nat): seq<Byte>
    requires i < MAX_FRAMES && (i + 1) * FRAME_SIZE <= |pcm|
  {
    Pack(Header(1, 1, i, clock(i), FRAME_SIZE)) + Chunk(pcm, i)
  }

  /** The frames of a prefix of the buffer, in order. */
  ghost predicate ClientStream(pcm: seq<Byte>, clock: nat -> Stamp, frames: seq<seq<Byte>>) {
    |frames| <= MAX_FRAMES && |frames| * FRAME_SIZE <= |pcm| &&
    forall i: nat :: i < |frames| ==> (i + 1) * FRAME_SIZE <= |pcm| && frames[i] == ClientFrame(pcm, clock, i)
  }

  /** The framing loop. Packing a sequence number beyond 32 bits raises, so a longer buffer
      stops after 2^32 frames. */
  method FrameBuffer(pcm: seq<Byte>, clock: nat -> Stamp) returns (sent: seq<seq<Byte>>, ok: bool)
    ensures ok <==> |pcm| / FRAME_SIZE <= MAX_FRAMES
    ensures |sent| == if ok then |pcm| / FRAME_SIZE else MAX_FRAMES
    ensures ClientStream(pcm, clock, sent)
  {
    sent := [];
    var total := |pcm| / FRAME_SIZE;
    for i := 0 to total
      invariant |sent| == i <= MAX_FRAMES
      invariant forall k: nat :: k < i ==> (k + 1) * FRAME_SIZE <= |pcm| && sent[k] == ClientFrame(pcm, clock, k)
    {
      if i >= MAX_FRAMES {
        return sent, false;
      }
      var chunk := pcm[i * FRAME_SIZE..(i + 1) * FRAME_SIZE];
      sent := sent + [Pack(Header(1, 1, i, clock(i), |chunk|)) + chunk];
    }
    ok := true;
  }

  /** The audio the server hands on: the accepted payloads, joined up. */
  function Heard(frames: seq<seq<Byte>>): seq<Byte> {
    if frames == [] then []
    else
      var n := |frames| - 1;
      Heard(frames[..n]) + (match VerdictAt(frames, n) case Accepted(_, pcm) => pcm case Rejected(_) => [])
  }

  lemma ClientFrameFits(pcm: seq<Byte>, clock: nat -> Stamp, i: nat)
    requires i < MAX_FRAMES && (i + 1) * FRAME_SIZE <= |pcm|
    ensures var f := ClientFrame(pcm, clock, i);
            Numbered(f) && Fits(f) && HeaderOf(f).sequence == i && f[HEADER_SIZE..] == Chunk(pcm, i)
  {
    var h := Header(1, 1, i, clock(i), FRAME_SIZE);
    assert ClientFrame(pcm, clock, i)[..HEADER_SIZE] == Pack(h);
    HeaderRoundTrip(h);
  }

  /** A client frame in bytes: version and kind 1, its place in the stream as the number, 640 as the
      length, and after the 18 bytes of header the 640 of the buffer that are its share. */
  lemma ClientFrameLayout(pcm: seq<Byte>, clock: nat -> Stamp, i: nat)
    requires i < 4294967296 && (i + 1) * 640 <= |pcm|
    ensures var f := ClientFrame(pcm, clock, i);
            && |f| == 658 && f[0] == f[1] == 1
            && BigEndian(f[2], f[3], f[4], f[5]) == i && f[6..14] == clock(i)
            && BigEndian(f[14], f[15], f[16], f[17]) == 640
            && f[18..] == pcm[i * 640..(i + 1) * 640]
  {
    ClientFrameFits(pcm, clock, i);
    var f := ClientFrame(pcm, clock, i);
    var h := Header(1, 1, i, clock(i), FRAME_SIZE);
    HeaderRoundTrip(h);
    assert f[..18] == Pack(h);
    HeaderLayout(f[..18]);
    hide Pack;
    hide Unpack;
  }

  /** Every frame of the client's stream is accepted in full. */
  lemma {:induction false} ClientFrameAccepted(pcm: seq<Byte>, clock: nat -> Stamp, frames: seq<seq<Byte>>, i: nat)
    requires ClientStream(pcm, clock, frames) && i < |frames|
    ensures VerdictAt(frames, i) == Accepted(i, Chunk(pcm, i))
  {
    forall j: nat | j <= i
      ensures Numbered(frames[j]) && Fits(frames[j]) && HeaderOf(frames[j]).sequence == j
              && frames[j][HEADER_SIZE..] == Chunk(pcm, j)
    {
      ClientFrameFits(pcm, clock, j);
    }
    AcceptedIff(frames, i);
  }

  /** What a fresh receiver hears is exactly the part of the buffer that was framed: up to the
      last whole frame, once all are sent. */
  lemma {:induction false} ServerHearsClient(pcm: seq<Byte>, clock: nat -> Stamp, frames: seq<seq<Byte>>)
    requires ClientStream(pcm, clock, frames)
    ensures Heard(frames) == pcm[..|frames| * FRAME_SIZE]
    decreases |frames|
  {
    if frames == [] {
    } else {
      var n := |frames| - 1;
      ServerHearsClient(pcm, clock, frames[..n]);
      ClientFrameAccepted(pcm, clock, frames, n);
      assert pcm[..n * FRAME_SIZE] + Chunk(pcm, n) == pcm[..|frames| * FRAME_SIZE];
    }
  }
}
