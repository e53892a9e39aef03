/**
 The stream of an attached container ("Stream format" of the ContainerAttach operation,
 Docker Engine API v1.41): frames of a header of 8 bytes and a payload. The first byte of the
 header tells the stream. The program reads the payload length from the other seven.
 */
module AttachStream {
  import opened Sequences
  import opened Bytes

  const HEADER_SIZE := 8

  const STDOUT: Byte := 1

  const STDERR: Byte := 2

  const TWO_TO_THE_56 := 0x1_00000000_000000

  // ---------- headers ----------

  /** `struct.unpack('>Q', ...)` */
  function BigEndian(bytes: Data): nat {
    if bytes == [] then 0 else BigEndian(bytes[..|bytes| - 1]) * 256 + bytes[|bytes| - 1]
  }

  function ToBigEndian(value: nat, size: nat): Data {
    if size == 0 then [] else ToBigEndian(value / 256, size - 1) + [value % 256]
  }

  function Power256(n: nat): nat {
    if n == 0 then 1 else 256 * Power256(n - 1)
  }

  lemma {:induction false} BigEndianRoundTrip(value: nat, size: nat)
    requires value < Power256(size)
    ensures |ToBigEndian(value, size)| == size && BigEndian(ToBigEndian(value, size)) == value
  {
    if size > 0 {
      BigEndianRoundTrip(value / 256, size - 1);
      var high := ToBigEndian(value / 256, size - 1);
      assert (high + [value % 256])[..size - 1] == high;
    }
  }

  lemma {:induction false} BytesRoundTrip(bytes: Data)
    ensures BigEndian(bytes) < Power256(|bytes|)
    ensures ToBigEndian(BigEndian(bytes), |bytes|) == bytes
  {
    if bytes != [] {
      var n := |bytes| - 1;
      BytesRoundTrip(bytes[..n]);
      assert BigEndian(bytes) / 256 == BigEndian(bytes[..n]) && BigEndian(bytes) % 256 == bytes[n];
      assert bytes == bytes[..n] + [bytes[n]];
    }
  }

  lemma {:induction false} BigEndianFirst(first: Byte, rest: Data)
    ensures BigEndian([first] + rest) == first * Power256(|rest|) + BigEndian(rest)
  {
    var bytes := [first] + rest;
    if rest == [] {
      assert bytes[..0] == [];
    } else {
      var n := |rest| - 1;
      BigEndianFirst(first, rest[..n]);
      assert bytes[..|bytes| - 1] == [first] + rest[..n];
      assert first * Power256(|rest|) == first * Power256(n) * 256;
    }
  }

  lemma SevenBytes()
    ensures Power256(7) == TWO_TO_THE_56
  {
    assert Power256(3) == 0x1_000000;
    assert Power256(5) == 0x1_00000000_00;
  }

  function Header(kind: Byte, length: nat): Data {
    [kind] + ToBigEndian(length, 7)
  }

  /** What the program makes of the 64 bits of a header. */
  function KindOf(header: Data): nat {
    BigEndian(header) / TWO_TO_THE_56
  }

  function LengthOf(header: Data): nat {
    BigEndian(header) % TWO_TO_THE_56
  }

  /** Shifting and masking tell the two fields of every header apart. */
  lemma HeaderFields(header: Data)
    requires |header| == HEADER_SIZE
    ensures KindOf(header) == header[0] && LengthOf(header) < TWO_TO_THE_56
    ensures Header(header[0], LengthOf(header)) == header
  {
    var first, rest := header[0], header[1..];
    assert header == [first] + rest;
    BigEndianFirst(first, rest);
    BytesRoundTrip(rest);
    SevenBytes();
    assert BigEndian(header) == first * TWO_TO_THE_56 + BigEndian(rest);
  }

  lemma HeaderRoundTrip(kind: Byte, length: nat)
    requires length < TWO_TO_THE_56
    ensures |Header(kind, length)| == HEADER_SIZE
    ensures KindOf(Header(kind, length)) == kind && LengthOf(Header(kind, length)) == length
  {
    SevenBytes();
    BigEndianRoundTrip(length, 7);
    BigEndianFirst(kind, ToBigEndian(length, 7));
  }

  /** The header of the documented format: three zero bytes, then the length in four. */
  lemma DocumentedHeader(kind: Byte, length: nat)
    requires length < Power256(4)
    ensures Header(kind, length) == [kind, 0, 0, 0] + ToBigEndian(length, 4)
  {
    BigEndianRoundTrip(length, 4);
    var low := ToBigEndian(length, 4);
    LeadingZeros(length, 4);
    LeadingZeros(length, 5);
    LeadingZeros(length, 6);
  }

  lemma {:induction false} LeadingZeros(value: nat, size: nat)
    requires value < Power256(size)
    ensures ToBigEndian(value, size + 1) == [0] + ToBigEndian(value, size)
  {
    if size > 0 {
      LeadingZeros(value / 256, size - 1);
    }
  }

  lemma {:induction false} BigEndianConcat(high: Data, low: Data)
    ensures BigEndian(high + low) == BigEndian(high) * Power256(|low|) + BigEndian(low)
  {
    if low == [] {
      assert high + low == high;
    } else {
      var n := |low| - 1;
      BigEndianConcat(high, low[..n]);
      assert (high + low)[..|high| + n] == high + low[..n];
      assert BigEndian(high) * Power256(|low|) == BigEndian(high) * Power256(n) * 256;
    }
  }

  lemma LengthIsTheRest(header: Data)
    requires |header| == HEADER_SIZE
    ensures LengthOf(header) == BigEndian(header[1..])
  {
    HeaderFields(header);
    SevenBytes();
    BigEndianRoundTrip(LengthOf(header), 7);
    assert Header(header[0], LengthOf(header))[1..] == ToBigEndian(LengthOf(header), 7);
  }

  lemma NothingHigh(high: nat, power: nat, low: nat)
    requires power > 0
    ensures high * power + low == low <==> high == 0
  {
  }

  lemma PowerIsPositive(n: nat)
    ensures Power256(n) > 0
  {
  }

  /** The program reads the length that the documented format gives exactly from headers with
      three zero bytes before it. */
  lemma DocumentedExactly(header: Data)
    requires |header| == HEADER_SIZE
    ensures LengthOf(header) == BigEndian(header[4..]) <==> header[1] == 0 && header[2] == 0 && header[3] == 0
  {
    var high, low := header[1..4], header[4..];
    LengthIsTheRest(header);
    assert header[1..] == high + low;
    BigEndianConcat(high, low);
    PowerIsPositive(|low|);
    NothingHigh(BigEndian(high), Power256(|low|), BigEndian(low));
    ThreeBytes(high);
  }

  lemma ThreeBytes(high: Data)
    requires |high| == 3
    ensures BigEndian(high) == 0 <==> high[0] == 0 && high[1] == 0 && high[2] == 0
  {
    assert BigEndian(high) == BigEndian(high[..2]) * 256 + high[2];
    assert BigEndian(high[..2]) == BigEndian(high[..1]) * 256 + high[1];
    assert high[..1] == [high[0]];
    assert BigEndian([high[0]]) == high[0];
  }

  // ---------- frames ----------

  datatype Frame = Frame(kind: Byte, payload: Data)

  ghost predicate Sendable(f: Frame) {
    0 < |f.payload| < TWO_TO_THE_56
  }

  ghost function Encode(frames: seq<Frame>): Data {
    if frames == [] then []
    else Header(frames[0].kind, |frames[0].payload|) + frames[0].payload + Encode(frames[1..])
  }

  /** What a frame adds to a stream. */
  function Of(kind: Byte, f: Frame): Data {
    if f.kind == kind then f.payload else []
  }

  /** The payloads of one stream, in order. */
  ghost function Payloads(frames: seq<Frame>, kind: Byte): Data {
    if frames == [] then []
    else Of(kind, frames[0]) + Payloads(frames[1..], kind)
  }

  // ---------- reading one frame ----------

  datatype Unpacked = Eof | Unpacked(kind: nat, payload: Data) | Aborted

  /** The frame at the start of the input, and what is left. Fewer bytes than a header are
      read and forgotten; a payload that is cut short ends the program. */
  ghost function Unpack(input: Data): (Unpacked, Data) {
    if |input| < HEADER_SIZE then (Eof, [])
    else
      var header, rest := input[..HEADER_SIZE], input[HEADER_SIZE..];
      var length := LengthOf(header);
      if |rest| < length then (Aborted, [])
      else (Unpacked(KindOf(header), rest[..length]), rest[length..])
  }

  method UnpackContainerStream(socket: Source) returns (r: Unpacked)
    modifies socket
    ensures (r, socket.left) == Unpack(old(socket.left))
  {
    var buf: Data := [];
    while |buf| < HEADER_SIZE
      invariant |buf| <= HEADER_SIZE && buf + socket.left == old(socket.left)
      decreases |socket.left|
    {
      var chunk := socket.Read(HEADER_SIZE - |buf|);
      if chunk == [] {
        return Eof;
      }
      buf := buf + chunk;
    }
    ghost var rest := socket.left;
    assert buf == old(socket.left)[..HEADER_SIZE] && rest == old(socket.left)[HEADER_SIZE..];
    var length, kind := LengthOf(buf), KindOf(buf);
    buf := [];
    while |buf| < length
      invariant |buf| <= length && buf + socket.left == rest
      decreases |socket.left|
    {
      var chunk := socket.Read(length - |buf|);
      if chunk == [] {
        return Aborted;
      }
      buf := buf + chunk;
    }
    assert buf == rest[..length] && socket.left == rest[length..];
    return Unpacked(kind, buf);
  }

  // ---------- the whole stream ----------

  /** What a reader that stops at the first empty payload delivers. */
  datatype Delivery = Delivery(out: Data, err: Data, aborted: bool)

  ghost function Demultiplex(input: Data): Delivery
    decreases |input|
  {
    var (r, rest) := Unpack(input);
    if r.Aborted? then Delivery([], [], true)
    else if r.Eof? || r.payload == [] then Delivery([], [], false)
    else
      var more := Demultiplex(rest);
      Delivery((if r.kind == STDOUT then r.payload else []) + more.out,
               (if r.kind == STDERR then r.payload else []) + more.err, more.aborted)
  }

  lemma UnpackFrame(f: Frame, rest: Data)
    requires |f.payload| < TWO_TO_THE_56
    ensures Unpack(Header(f.kind, |f.payload|) + f.payload + rest) == (Unpacked(f.kind, f.payload), rest)
  {
    var header := Header(f.kind, |f.payload|);
    HeaderRoundTrip(f.kind, |f.payload|);
    var input := header + f.payload + rest;
    assert input[..HEADER_SIZE] == header && input[HEADER_SIZE..] == f.payload + rest;
  }

  lemma FirstFrame(frames: seq<Frame>, tail: Data)
    requires frames != [] && Sendable(frames[0])
    ensures Unpack(Encode(frames) + tail)
         == (Unpacked(frames[0].kind, frames[0].payload), Encode(frames[1..]) + tail)
  {
    var f, rest := frames[0], Encode(frames[1..]);
    UnpackFrame(f, rest + tail);
    Regroup(Header(f.kind, |f.payload|) + f.payload, rest, tail);
  }

  lemma FrameThenRest(frames: seq<Frame>, rest: Data)
    requires frames != [] && Sendable(frames[0])
    ensures Demultiplex(Encode(frames) + rest) ==
      var f, more := frames[0], Demultiplex(Encode(frames[1..]) + rest);
      Delivery(Of(STDOUT, f) + more.out, Of(STDERR, f) + more.err, more.aborted)
  {
    FirstFrame(frames, rest);
  }

  /** Frames in front of a stream add their payloads to what it delivers. */
  lemma {:induction false} FramesThenRest(frames: seq<Frame>, rest: Data)
    requires forall f :: f in frames ==> Sendable(f)
    ensures Demultiplex(Encode(frames) + rest) ==
      var more := Demultiplex(rest);
      Delivery(Payloads(frames, STDOUT) + more.out, Payloads(frames, STDERR) + more.err, more.aborted)
  {
    var more := Demultiplex(rest);
    if frames == [] {
      assert Encode(frames) + rest == rest;
      assert [] + more.out == more.out && [] + more.err == more.err;
    } else {
      var f := frames[0];
      assert f in frames;
      FrameThenRest(frames, rest);
      FramesThenRest(frames[1..], rest);
      Regroup(Of(STDOUT, f), Payloads(frames[1..], STDOUT), more.out);
      Regroup(Of(STDERR, f), Payloads(frames[1..], STDERR), more.err);
    }
  }

  lemma {:induction false} DigitsStep(h: Data, n: nat)
    requires n < |h|
    ensures BigEndian(h[..n + 1]) == 256 * BigEndian(h[..n]) + h[n]
  {
    assert h[..n + 1][..n] == h[..n];
  }

  lemma SevenDigits(h: Data)
    requires |h| == 7
    ensures BigEndian(h) == 0x1_0000_0000_0000 * (h[0] as int) + 0x100_0000_0000 * (h[1] as int) + 0x1_0000_0000 * (h[2] as int)
      + 0x100_0000 * (h[3] as int) + 0x1_0000 * (h[4] as int) + 0x100 * (h[5] as int) + (h[6] as int)
  {
    ThreeDigits(h);
    assert h[..7] == h;
    DigitsStep(h, 3);
    DigitsStep(h, 4);
    DigitsStep(h, 5);
    DigitsStep(h, 6);
  }

  lemma ThreeDigits(h: Data)
    requires |h| >= 3
    ensures BigEndian(h[..3]) == 0x1_0000 * (h[0] as int) + 0x100 * (h[1] as int) + (h[2] as int)
  {
    assert h[..0] == [];
    DigitsStep(h, 0);
    DigitsStep(h, 1);
    DigitsStep(h, 2);
  }

  lemma HeaderOfBytes(kind: Byte, h: Data)
    requires |h| == 7
    ensures BigEndian(h) < TWO_TO_THE_56 && Header(kind, BigEndian(h)) == [kind] + h
  {
    BytesRoundTrip(h);
    SevenBytes();
  }

  /** Stream 1 is the standard output, stream 2 the standard error, any other is dropped: byte by byte, a
      frame in front of a stream adds its payload there and nowhere else. */
  lemma FrameInBytes(kind: Byte, h: Data, payload: Data, rest: Data)
    requires |h| == 7 && payload != []
    requires |payload| == 0x1_0000_0000_0000 * (h[0] as int) + 0x100_0000_0000 * (h[1] as int) + 0x1_0000_0000 * (h[2] as int)
      + 0x100_0000 * (h[3] as int) + 0x1_0000 * (h[4] as int) + 0x100 * (h[5] as int) + (h[6] as int)
    ensures var more := Demultiplex(rest);
      Demultiplex([kind] + h + payload + rest) == Delivery(
        if kind == 1 then payload + more.out else more.out, if kind == 2 then payload + more.err else more.err, more.aborted)
  {
    SevenDigits(h);
    HeaderOfBytes(kind, h);
    UnpackFrame(Frame(kind, payload), rest);
    var more := Demultiplex(rest);
    assert [] + more.out == more.out && [] + more.err == more.err;
  }

  /** The frames up to the first without payload. */
  ghost function BeforeEmpty(frames: seq<Frame>): seq<Frame> {
    if frames == [] || frames[0].payload == [] then [] else [frames[0]] + BeforeEmpty(frames[1..])
  }

  lemma EmptyFrameEnds(f: Frame, rest: Data)
    requires f.payload == []
    ensures Demultiplex(Header(f.kind, |f.payload|) + f.payload + rest) == Delivery([], [], false)
  {
    UnpackFrame(f, rest);
  }

  /** Demultiplexing inverts framing up to the first empty frame, which ends the stream. */
  lemma {:induction false} DemultiplexInvertsEncode(frames: seq<Frame>)
    requires forall f :: f in frames ==> |f.payload| < TWO_TO_THE_56
    ensures var before := BeforeEmpty(frames);
      Demultiplex(Encode(frames)) == Delivery(Payloads(before, STDOUT), Payloads(before, STDERR), false)
    ensures (forall f :: f in frames ==> f.payload != []) ==> BeforeEmpty(frames) == frames
  {
    if frames != [] {
      var f, rest := frames[0], Encode(frames[1..]);
      assert f in frames;
      DemultiplexInvertsEncode(frames[1..]);
      if f.payload == [] {
        EmptyFrameEnds(f, rest);
      } else {
        FrameThenRest(frames, []);
        assert Encode(frames) + [] == Encode(frames) && rest + [] == rest;
        assert BeforeEmpty(frames)[1..] == BeforeEmpty(frames[1..]);
      }
    }
  }

  /** A stream ends cleanly here: too little for a header, or a frame without payload. */
  ghost predicate CleanEnd(tail: Data) {
    |tail| < HEADER_SIZE || LengthOf(tail[..HEADER_SIZE]) == 0
  }

  /** A stream breaks off here, within a payload. */
  ghost predicate CutEnd(tail: Data) {
    |tail| >= HEADER_SIZE && |tail| - HEADER_SIZE < LengthOf(tail[..HEADER_SIZE])
  }

  /** Every byte stream is frames and then a clean end or a cut. */
  lemma {:induction false} Decompose(input: Data) returns (frames: seq<Frame>, tail: Data)
    ensures forall f :: f in frames ==> Sendable(f)
    ensures input == Encode(frames) + tail && (CleanEnd(tail) || CutEnd(tail))
    decreases |input|
  {
    if CleanEnd(input) || CutEnd(input) {
      frames, tail := [], input;
    } else {
      var header := input[..HEADER_SIZE];
      HeaderFields(header);
      var end := HEADER_SIZE + LengthOf(header);
      var f := Frame(header[0], input[HEADER_SIZE..end]);
      var more, t := Decompose(input[end..]);
      frames, tail := [f] + more, t;
      assert frames[1..] == more;
      assert input == header + f.payload + input[end..];
      assert Encode(frames) + tail == header + f.payload + (Encode(more) + tail);
    }
  }

  /** The reader aborts exactly when the input is whole frames and then one whose payload is cut
      short; otherwise it is whole frames and then fewer than 8 bytes or an empty frame. Either
      way the payloads of the whole frames are delivered. */
  lemma DemultiplexAnything(input: Data) returns (frames: seq<Frame>, tail: Data)
    ensures forall f :: f in frames ==> Sendable(f)
    ensures input == Encode(frames) + tail
    ensures Demultiplex(input) == Delivery(Payloads(frames, STDOUT), Payloads(frames, STDERR), CutEnd(tail))
    ensures !CutEnd(tail) <==> CleanEnd(tail)
  {
    frames, tail := Decompose(input);
    FramesThenRest(frames, tail);
  }

  /** And it is the only way to take the input apart. */
  lemma DecompositionIsUnique(frames: seq<Frame>, tail: Data, others: seq<Frame>, rest: Data)
    requires forall f :: f in frames + others ==> Sendable(f)
    requires CleanEnd(tail) || CutEnd(tail)
    requires CleanEnd(rest) || CutEnd(rest)
    requires Encode(frames) + tail == Encode(others) + rest
    ensures frames == others && tail == rest
  {
    if frames == [] {
      assert Encode(frames) + tail == tail;
    }
    if others == [] {
      assert Encode(others) + rest == rest;
    }
    if frames != [] {
      FirstFrame(frames, tail);
      assert frames[0] in frames + others;
    }
    if others != [] {
      FirstFrame(others, rest);
      assert others[0] in frames + others;
    }
    if frames != [] && others != [] {
      assert frames[0] == others[0];
      assert forall f :: f in frames[1..] + others[1..] ==> f in frames + others;
      DecompositionIsUnique(frames[1..], tail, others[1..], rest);
    }
  }
}
