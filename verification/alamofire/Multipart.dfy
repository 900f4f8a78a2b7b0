/**
 MultipartFormData: encoding the body parts in memory, and writing them through a stream. The
 strings of the program stand for their UTF-8 bytes.
 */
module Multipart {
  import opened Bits

  const CRLF: bytes := [13, 10]
  const DASHES: bytes := [45, 45]
  const COLON: bytes := [58, 32]
  const BUFFER_SIZE: nat := 1024

  datatype Header = Header(name: bytes, value: bytes)

  datatype EncodingError =
    | BodyPartFailed(reason: nat) | InputReadFailed | UnexpectedLength(expected: nat, actual: nat) | OutputWriteFailed

  datatype Result<T> = Ok(value: T) | Err(error: EncodingError)

  datatype BoundaryType = Initial | Encapsulated | Final

  function BoundaryData(kind: BoundaryType, boundary: bytes): bytes {
    match kind
    case Initial => DASHES + boundary + CRLF
    case Encapsulated => CRLF + DASHES + boundary + CRLF
    case Final => CRLF + DASHES + boundary + DASHES + CRLF
  }

  function HeaderLines(headers: seq<Header>): bytes {
    if headers == [] then [] else headers[0].name + COLON + headers[0].value + CRLF + HeaderLines(headers[1..])
  }

  function EncodeHeaders(headers: seq<Header>): bytes {
    HeaderLines(headers) + CRLF
  }

  /** A body part: what its stream will deliver, whether the stream then fails, and the marks on it. */
  datatype Part = Part(
    headers: seq<Header>, content: bytes, broken: bool, declared: nat,
    hasInitialBoundary: bool, hasFinalBoundary: bool)

  // ----- what the two encoders compute

  /** Everything of a part that precedes its content. */
  function Opening(p: Part, boundary: bytes): bytes {
    BoundaryData(if p.hasInitialBoundary then Initial else Encapsulated, boundary) + EncodeHeaders(p.headers)
  }

  function Closing(p: Part, boundary: bytes): bytes {
    if p.hasFinalBoundary then BoundaryData(Final, boundary) else []
  }

  function ReadAll(p: Part): Result<bytes> {
    if p.broken then Err(InputReadFailed)
    else if |p.content| != p.declared then Err(UnexpectedLength(p.declared, |p.content|))
    else Ok(p.content)
  }

  function EncodePart(p: Part, boundary: bytes): Result<bytes> {
    match ReadAll(p)
    case Err(e) => Err(e)
    case Ok(data) => Ok(Opening(p, boundary) + data + Closing(p, boundary))
  }

  function Prepended(data: bytes, r: Result<bytes>): Result<bytes> {
    match r
    case Err(e) => Err(e)
    case Ok(rest) => Ok(data + rest)
  }

  function EncodeParts(ps: seq<Part>, boundary: bytes): Result<bytes> {
    if ps == [] then Ok([])
    else
      match EncodePart(ps[0], boundary)
      case Err(e) => Err(e)
      case Ok(data) => Prepended(data, EncodeParts(ps[1..], boundary))
  }

  /** What a part sends to the output, which ends where its stream fails. */
  function PartFlow(p: Part, boundary: bytes): bytes {
    Opening(p, boundary) + p.content + if p.broken then [] else Closing(p, boundary)
  }

  function Flow(ps: seq<Part>, boundary: bytes): bytes {
    if ps == [] then []
    else PartFlow(ps[0], boundary) + if ps[0].broken then [] else Flow(ps[1..], boundary)
  }

  predicate AnyBroken(ps: seq<Part>) {
    exists i | 0 <= i < |ps| :: ps[i].broken
  }

  /** The first part opens the body and the last one closes it. */
  function Marked(ps: seq<Part>): (r: seq<Part>)
    ensures |r| == |ps|
  {
    if ps == [] then []
    else
      var qs := ps[0 := ps[0].(hasInitialBoundary := true)];
      qs[|ps| - 1 := qs[|ps| - 1].(hasFinalBoundary := true)]
  }

  // ----- the streams

  /** A byte stream that delivers its content in chunks of its own choosing, and then ends or fails. */
  class InputStream {
    const content: bytes
    const broken: bool
    var position: nat
    var streamError: bool

    ghost predicate Valid()
      reads this
    {
      position <= |content| && !streamError
    }

    ghost function Remaining(): bytes
      reads this
      requires Valid()
    {
      content[position..]
    }

    constructor (content: bytes, broken: bool)
      ensures Valid() && Remaining() == content && this.broken == broken
    {
      this.content := content;
      this.broken := broken;
      position := 0;
      streamError := false;
    }

    /** At its end the stream may not know yet that there is nothing more. */
    method HasBytesAvailable() returns (available: bool)
      requires Valid()
      ensures Remaining() != [] || broken ==> available
    {
      available := *;
      if position < |content| || broken {
        available := true;
      }
    }

    method Read(maxLength: nat) returns (chunk: bytes)
      requires Valid() && maxLength > 0
      modifies this
      ensures position <= |content| && streamError == (old(Remaining()) == [] && broken)
      ensures old(Remaining()) == chunk + content[position..]
      ensures |chunk| <= maxLength && (chunk == [] <==> old(Remaining()) == [])
    {
      if position == |content| {
        streamError := broken;
        return [];
      }
      var n: nat :| 1 <= n <= maxLength && n <= |content| - position;
      chunk := content[position..position + n];
      position := position + n;
    }
  }

  /** A stream that takes any part of what it is given, until it is full; then it has no space, or fails. */
  class OutputStream {
    const room: nat
    const faulty: bool
    var written: bytes
    var streamError: bool

    ghost predicate Valid()
      reads this
    {
      |written| <= room && !streamError
    }

    constructor (room: nat, faulty: bool)
      ensures Valid() && written == [] && this.room == room && this.faulty == faulty
    {
      this.room := room;
      this.faulty := faulty;
      written := [];
      streamError := false;
    }

    method HasSpaceAvailable() returns (available: bool)
      requires Valid()
      ensures available == (|written| < room || faulty)
    {
      available := |written| < room || faulty;
    }

    method WriteSome(buffer: bytes) returns (count: nat)
      requires Valid() && buffer != [] && (|written| < room || faulty)
      modifies this
      ensures count <= |buffer| && written == old(written) + buffer[..count] && |written| <= room
      ensures streamError == (old(|written|) == room) && (count == 0 <==> streamError)
    {
      if |written| == room {
        streamError := true;
        return 0;
      }
      var n: nat :| 1 <= n <= |buffer| && n <= room - |written|;
      written := written + buffer[..n];
      return n;
    }
  }

  function Min(a: nat, b: nat): nat {
    if a < b then a else b
  }

  /** What a stream holds after all of `data` has been sent to it. */
  function Sent(written: bytes, data: bytes, room: nat): bytes
    requires |written| <= room
  {
    written + data[..Min(|data|, room - |written|)]
  }

  predicate Overflows(written: bytes, data: bytes, room: nat) {
    |written| + |data| > room
  }

  /** The private write(_:to:). */
  method WriteBuffer(data: bytes, output: OutputStream) returns (result: Result<()>)
    requires output.Valid()
    modifies output
    ensures output.written == Sent(old(output.written), data, output.room)
    ensures result == if output.faulty && Overflows(old(output.written), data, output.room)
        then Err(OutputWriteFailed) else Ok(())
    ensures result.Ok? ==> output.Valid()
  {
    var buffer := data;
    var bytesToWrite := |buffer|;
    ghost var done := 0;
    var space := output.HasSpaceAvailable();
    while bytesToWrite > 0 && space
      invariant output.Valid() && space == (|output.written| < output.room || output.faulty)
      invariant 0 <= done <= |data| && bytesToWrite == |data| - done
      invariant bytesToWrite > 0 ==> buffer == data[done..]
      invariant output.written == old(output.written) + data[..done]
      decreases bytesToWrite
    {
      var bytesWritten := output.WriteSome(buffer);
      if output.streamError {
        return Err(OutputWriteFailed);
      }
      assert data[..done + bytesWritten] == data[..done] + data[done..][..bytesWritten];
      bytesToWrite := bytesToWrite - bytesWritten;
      done := done + bytesWritten;
      if bytesToWrite > 0 {
        buffer := buffer[bytesWritten..];
      }
      space := output.HasSpaceAvailable();
    }
    return Ok(());
  }

  class BodyPart {
    const headers: seq<Header>
    const bodyStream: InputStream
    const bodyContentLength: nat
    var hasInitialBoundary: bool
    var hasFinalBoundary: bool

    ghost function Now(): Part
      reads this, bodyStream
      requires bodyStream.Valid()
    {
      Part(headers, bodyStream.Remaining(), bodyStream.broken, bodyContentLength, hasInitialBoundary, hasFinalBoundary)
    }

    constructor (headers: seq<Header>, bodyStream: InputStream, bodyContentLength: nat)
      requires bodyStream.Valid()
      ensures this.bodyStream == bodyStream
      ensures Now() == Part(headers, bodyStream.Remaining(), bodyStream.broken, bodyContentLength, false, false)
    {
      this.headers := headers;
      this.bodyStream := bodyStream;
      this.bodyContentLength := bodyContentLength;
      hasInitialBoundary := false;
      hasFinalBoundary := false;
    }

    /** encodeBodyStream */
    method EncodeBodyStream() returns (result: Result<bytes>)
      requires bodyStream.Valid()
      modifies bodyStream
      ensures result == ReadAll(old(Now()))
    {
      var encoded: bytes := [];
      var available := bodyStream.HasBytesAvailable();
      while available
        invariant bodyStream.Valid() && old(bodyStream.Remaining()) == encoded + bodyStream.Remaining()
        invariant bodyStream.Remaining() != [] || bodyStream.broken ==> available
        decreases |bodyStream.Remaining()|
      {
        var chunk := bodyStream.Read(BUFFER_SIZE);
        if bodyStream.streamError {
          return Err(InputReadFailed);
        }
        if |chunk| > 0 {
          encoded := encoded + chunk;
        } else {
          assert bodyStream.Remaining() == [];
          break;
        }
        available := bodyStream.HasBytesAvailable();
      }
      assert bodyStream.Remaining() == [] && old(bodyStream.Remaining()) == encoded;
      if |encoded| != bodyContentLength {
        return Err(UnexpectedLength(bodyContentLength, |encoded|));
      }
      return Ok(encoded);
    }

    /** encode(_:) for one part */
    method Encode(boundary: bytes) returns (result: Result<bytes>)
      requires bodyStream.Valid()
      modifies bodyStream
      ensures result == EncodePart(old(Now()), boundary)
    {
      var encoded := BoundaryData(if hasInitialBoundary then Initial else Encapsulated, boundary);
      encoded := encoded + EncodeHeaders(headers);
      var body := EncodeBodyStream();
      if body.Err? {
        return Err(body.error);
      }
      encoded := encoded + body.value;
      if hasFinalBoundary {
        encoded := encoded + BoundaryData(Final, boundary);
      } else {
        assert encoded + [] == encoded;
      }
      return Ok(encoded);
    }

    /** writeBodyStream */
    method WriteBodyStream(output: OutputStream) returns (result: Result<()>)
      requires bodyStream.Valid() && output.Valid()
      modifies bodyStream, output
      ensures output.written == Sent(old(output.written), old(bodyStream.Remaining()), output.room)
      ensures result == Ending(output.faulty, output.room, old(output.written), old(bodyStream.Remaining()),
          bodyStream.broken)
      ensures result.Ok? ==> output.Valid()
    {
      ghost var written, all := output.written, bodyStream.Remaining();
      ghost var read: bytes := [];
      SentNothing(written, output.room);
      var available := bodyStream.HasBytesAvailable();
      while available
        invariant bodyStream.Valid() && output.Valid() && all == read + bodyStream.Remaining()
        invariant bodyStream.Remaining() != [] || bodyStream.broken ==> available
        invariant output.written == Sent(written, read, output.room)
        invariant !(output.faulty && Overflows(written, read, output.room))
        decreases |bodyStream.Remaining()|
      {
        var chunk := bodyStream.Read(BUFFER_SIZE);
        if bodyStream.streamError {
          return Err(InputReadFailed);
        }
        if |chunk| > 0 {
          SentTwice(written, read, chunk, output.room);
          SentMore(written, read + chunk, bodyStream.Remaining(), output.room);
          assert all == (read + chunk) + bodyStream.Remaining();
          result := WriteBuffer(chunk, output);
          read := read + chunk;
          if result.Err? {
            return;
          }
        } else {
          break;
        }
        available := bodyStream.HasBytesAvailable();
      }
      assert bodyStream.Remaining() == [] && read == all;
      return Ok(());
    }

    /** write(_:to:) for one part */
    method Write(boundary: bytes, output: OutputStream) returns (result: Result<()>)
      requires bodyStream.Valid() && output.Valid()
      modifies bodyStream, output
      ensures output.written == Sent(old(output.written), PartFlow(old(Now()), boundary), output.room)
      ensures result == Ending(output.faulty, output.room, old(output.written), PartFlow(old(Now()), boundary),
          bodyStream.broken)
      ensures result.Ok? ==> output.Valid()
    {
      ghost var written, room, p := output.written, output.room, Now();
      ghost var b := BoundaryData(if hasInitialBoundary then Initial else Encapsulated, boundary);
      ghost var tail := if p.broken then [] else Closing(p, boundary);
      Regroup(b, EncodeHeaders(headers), p.content, tail);
      hide BoundaryData, EncodeHeaders, Sent, Overflows;
      SentMore(written, b, EncodeHeaders(headers) + p.content + tail, room);
      result := WriteBuffer(BoundaryData(if hasInitialBoundary then Initial else Encapsulated, boundary), output);
      if result.Err? {
        return;
      }
      SentTwice(written, b, EncodeHeaders(headers), room);
      SentMore(written, b + EncodeHeaders(headers), p.content + tail, room);
      result := WriteBuffer(EncodeHeaders(headers), output);
      if result.Err? {
        return;
      }
      SentTwice(written, b + EncodeHeaders(headers), p.content, room);
      SentMore(written, b + EncodeHeaders(headers) + p.content, tail, room);
      result := WriteBodyStream(output);
      if result.Err? {
        return;
      }
      SentTwice(written, b + EncodeHeaders(headers) + p.content, tail, room);
      if hasFinalBoundary {
        result := WriteBuffer(BoundaryData(Final, boundary), output);
      }
    }
  }

  /** How sending data ends, when the stream it was read from was broken or not. */
  function Ending(faulty: bool, room: nat, written: bytes, data: bytes, broken: bool): Result<()> {
    if faulty && Overflows(written, data, room) then Err(OutputWriteFailed)
    else if broken then Err(InputReadFailed)
    else Ok(())
  }

  lemma {:induction false} SentNothing(written: bytes, room: nat)
    requires |written| <= room
    ensures Sent(written, [], room) == written
  {
  }

  lemma {:induction false} SentTwice(written: bytes, a: bytes, b: bytes, room: nat)
    requires |written| <= room
    ensures Sent(Sent(written, a, room), b, room) == Sent(written, a + b, room)
    ensures !Overflows(written, a, room) ==>
              (Overflows(Sent(written, a, room), b, room) <==> Overflows(written, a + b, room))
  {
  }

  lemma {:induction false} SentMore(written: bytes, a: bytes, b: bytes, room: nat)
    requires |written| <= room
    ensures Overflows(written, a, room) ==>
              Sent(written, a, room) == Sent(written, a + b, room) && Overflows(written, a + b, room)
  {
  }

  lemma {:induction false} Regroup(a: bytes, b: bytes, c: bytes, d: bytes)
    ensures a + b + c + d == (a + b) + (c + d) == a + (b + c + d)
  {
  }
}
