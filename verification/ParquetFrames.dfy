/** Frames on the pipes between parent and child. */
module ParquetFrames {
  import opened Wrappers
  import opened Bytes
  import opened PreviewLimits

  datatype FrameError = TooLarge | Incomplete

  /** `_frame`, from the JSON text of the message on. */
  function Frame(payload: Bytes): Result<Bytes, FrameError> {
    if |payload| > MAX_FRAME_BYTES then Err(TooLarge)
    else
      Ok(BigEndian(|payload|, 4) + payload)
  }

  datatype Read = Read(payload: Bytes, rest: Bytes)

  /** `_read_frame`, up to the JSON text, and `_receive_frame` likewise. */
  function ReadFrame(stream: Bytes): Result<Read, FrameError> {
    if |stream| < 4 then Err(Incomplete)
    else
      var length := FromBigEndian(stream[..4]);
      if length > MAX_FRAME_BYTES then Err(TooLarge)
      else if |stream| - 4 < length then Err(Incomplete)
      else Ok(Read(stream[4..4 + length], stream[4 + length..]))
  }

  lemma Header(payload: Bytes, rest: Bytes)
    requires |payload| <= MAX_FRAME_BYTES
    ensures |Frame(payload).value| == 4 + |payload|
    ensures (Frame(payload).value + rest)[..4] == Frame(payload).value[..4]
    ensures FromBigEndian(Frame(payload).value[..4]) == |payload|
  {
    var head := BigEndian(|payload|, 4);
    BigEndianRoundTrip(|payload|, 4);
    assert (head + payload + rest)[..4] == head == (head + payload)[..4];
  }

  /** A frame is read back, whatever follows it. */
  lemma ReadOfFrame(payload: Bytes, rest: Bytes)
    requires |payload| <= MAX_FRAME_BYTES
    ensures ReadFrame(Frame(payload).value + rest) == Ok(Read(payload, rest))
  {
    Header(payload, rest);
    var frame := Frame(payload).value;
    assert (frame + rest)[4..4 + |payload|] == payload;
    assert (frame + rest)[4 + |payload|..] == rest;
  }

  /** Only a frame reads as one. */
  lemma FrameOfRead(stream: Bytes)
    requires ReadFrame(stream).Ok?
    ensures var r := ReadFrame(stream).value; Frame(r.payload).Ok? && stream == Frame(r.payload).value + r.rest
  {
    var r := ReadFrame(stream).value;
    BigEndianOfFromBigEndian(stream[..4]);
    assert stream == stream[..4] + r.payload + r.rest;
  }

  /** A frame cut short is never mistaken for a message. */
  lemma CutFrameIsIncomplete(payload: Bytes, n: nat)
    requires |payload| <= MAX_FRAME_BYTES && n < |Frame(payload).value|
    ensures ReadFrame(Frame(payload).value[..n]) == Err(Incomplete)
  {
    var frame := Frame(payload).value;
    Header(payload, []);
    if n >= 4 {
      assert frame[..n][..4] == frame[..4];
    }
  }

  /** Too much to send is refused by the sender, and by its length alone by the reader. */
  lemma OversizeIsRefused(payload: Bytes, length: int, rest: Bytes)
    requires |payload| > MAX_FRAME_BYTES && MAX_FRAME_BYTES < length < Radix(4)
    ensures Frame(payload) == Err(TooLarge) && ReadFrame(BigEndian(length, 4) + rest) == Err(TooLarge)
  {
    BigEndianRoundTrip(length, 4);
    assert (BigEndian(length, 4) + rest)[..4] == BigEndian(length, 4);
  }

  function Stream(payloads: seq<Bytes>): Bytes
    requires forall i :: 0 <= i < |payloads| ==> |payloads[i]| <= MAX_FRAME_BYTES
  {
    if payloads == [] then [] else Frame(payloads[0]).value + Stream(payloads[1..])
  }

  function ReadAll(stream: Bytes): Result<seq<Bytes>, FrameError>
    decreases |stream|
  {
    if stream == [] then Ok([])
    else match ReadFrame(stream)
      case Err(e) => Err(e)
      case Ok(r) =>
        match ReadAll(r.rest)
        case Err(e) => Err(e)
        case Ok(payloads) => Ok([r.payload] + payloads)
  }

  /** Any sequence of frames keeps its boundaries on the pipe. */
  lemma {:induction false} ReadAllOfStream(payloads: seq<Bytes>)
    requires forall i :: 0 <= i < |payloads| ==> |payloads[i]| <= MAX_FRAME_BYTES
    ensures ReadAll(Stream(payloads)) == Ok(payloads)
  {
    if payloads != [] {
      ReadAllOfStream(payloads[1..]);
      ReadOfFrame(payloads[0], Stream(payloads[1..]));
      assert payloads == [payloads[0]] + payloads[1..];
    }
  }
}
