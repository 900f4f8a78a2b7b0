/** The two encoders of a whole multipart form, and when they agree. */
module MultipartEncoders {
  import opened Bits
  import opened Multipart
  import opened Wrappers

  // ----- the two results compared

  predicate Deliverable(p: Part) {
    !p.broken && |p.content| == p.declared
  }

  predicate AllDeliverable(ps: seq<Part>) {
    forall i | 0 <= i < |ps| :: Deliverable(ps[i])
  }

  lemma {:induction false} BrokenHead(ps: seq<Part>)
    requires ps != []
    ensures AnyBroken(ps) <==> ps[0].broken || AnyBroken(ps[1..])
  {
  }

  /**
   In memory exactly the forms whose streams deliver what was declared can be encoded; then the streamed bytes are the
   same.
   */
  lemma {:induction false} EncodersAgree(ps: seq<Part>, boundary: bytes)
    ensures EncodeParts(ps, boundary).Ok? <==> AllDeliverable(ps)
    ensures AllDeliverable(ps) ==> !AnyBroken(ps) && EncodeParts(ps, boundary) == Ok(Flow(ps, boundary))
  {
    if ps != [] {
      EncodersAgree(ps[1..], boundary);
      BrokenHead(ps);
      AllHead(ps);
    }
  }

  /** What writing to an output with room for everything comes to: the bytes, or the read error. */
  function Streamed(ps: seq<Part>, boundary: bytes): Result<bytes> {
    if AnyBroken(ps) then Err(InputReadFailed) else Ok(Flow(ps, boundary))
  }

  /** The first part that cannot be delivered, if there is one, has a stream that fails. */
  predicate FailsFirst(ps: seq<Part>) {
    exists i | 0 <= i < |ps| :: ps[i].broken && AllDeliverable(ps[..i])
  }

  lemma {:induction false} AllHead(ps: seq<Part>)
    requires ps != []
    ensures AllDeliverable(ps) <==> Deliverable(ps[0]) && AllDeliverable(ps[1..])
  {
    assert forall i | 0 < i < |ps| :: ps[i] == ps[1..][i - 1];
  }

  /** The first part that cannot be delivered decides how encoding in memory fails. */
  lemma {:induction false} FirstFailure(ps: seq<Part>, boundary: bytes)
    ensures EncodeParts(ps, boundary) == Err(InputReadFailed) <==> FailsFirst(ps)
  {
    hide EncodePart, Prepended;
    if ps != [] {
      FirstFailure(ps[1..], boundary);
      HeadFailure(ps, boundary);
      HeadFails(ps);
    }
  }

  lemma {:induction false} HeadFailure(ps: seq<Part>, boundary: bytes)
    requires ps != []
    ensures EncodeParts(ps, boundary) == Err(InputReadFailed) <==>
            ps[0].broken || (Deliverable(ps[0]) && EncodeParts(ps[1..], boundary) == Err(InputReadFailed))
  {
  }

  lemma {:induction false} HeadFails(ps: seq<Part>)
    requires ps != []
    ensures FailsFirst(ps) <==> ps[0].broken || (Deliverable(ps[0]) && FailsFirst(ps[1..]))
  {
    if ps[0].broken {
      assert AllDeliverable(ps[..0]);
    }
    if Deliverable(ps[0]) && FailsFirst(ps[1..]) {
      var i :| 0 <= i < |ps[1..]| && ps[1..][i].broken && AllDeliverable(ps[1..][..i]);
      AllHead(ps[..i + 1]);
      assert ps[..i + 1][1..] == ps[1..][..i];
      assert ps[i + 1].broken && AllDeliverable(ps[..i + 1]);
    }
    if FailsFirst(ps) && !ps[0].broken {
      var i :| 0 <= i < |ps| && ps[i].broken && AllDeliverable(ps[..i]);
      AllHead(ps[..i]);
      assert ps[..i][1..] == ps[1..][..i - 1];
      assert ps[1..][i - 1].broken && AllDeliverable(ps[1..][..i - 1]);
    }
  }

  /**
   The two encoders come to the same exactly when every part is delivered as declared, or when the
   first one that is not has a stream that fails; both succeed or both fail exactly when every
   part is delivered as declared or some stream fails.
   */
  lemma {:induction false} SameOutcome(ps: seq<Part>, boundary: bytes)
    ensures EncodeParts(ps, boundary) == Streamed(ps, boundary) <==> AllDeliverable(ps) || FailsFirst(ps)
    ensures EncodeParts(ps, boundary).Ok? == Streamed(ps, boundary).Ok? <==> AllDeliverable(ps) || AnyBroken(ps)
  {
    hide EncodeParts, Flow;
    EncodersAgree(ps, boundary);
    FirstFailure(ps, boundary);
  }

  /** The output gets what there is room for; a write error comes first if it does not take all, then a read error. */
  lemma {:induction false} StreamedEnding(
    ps: seq<Part>, boundary: bytes, written: bytes, room: nat, faulty: bool)
    requires |written| <= room
    ensures var data := Flow(ps, boundary);
            var all, full := written + data, |written| + |data| > room;
            && Sent(written, data, room) == (if full then all[..room] else all)
            && Ending(faulty, room, written, data, AnyBroken(ps)) ==
               if faulty && full then Err(OutputWriteFailed) else if AnyBroken(ps) then Err(InputReadFailed) else Ok(())
  {
    var data := Flow(ps, boundary);
    if |written| + |data| <= room {
      assert data[..|data|] == data;
    } else {
      assert (written + data)[..room] == written + data[..room - |written|];
    }
  }

  /** Success is reported for output that was cut off exactly when the output was full, without failing, too early. */
  lemma {:induction false} CutOffSilently(
    ps: seq<Part>, boundary: bytes, written: bytes, room: nat, faulty: bool)
    requires |written| <= room
    ensures Ending(faulty, room, written, Flow(ps, boundary), AnyBroken(ps)) == Ok(()) &&
            Sent(written, Flow(ps, boundary), room) != written + Flow(ps, boundary) <==>
            !faulty && !AnyBroken(ps) && |written| + |Flow(ps, boundary)| > room
  {
    var data := Flow(ps, boundary);
    if |written| + |data| <= room {
      assert data[..|data|] == data;
    } else {
      assert |Sent(written, data, room)| < |written + data|;
    }
  }

  /** A stream that delivers more or less than was declared is refused in memory and written out without complaint. */
  lemma {:induction false} LengthUnchecked(p: Part, boundary: bytes)
    requires !p.broken && p.declared != |p.content|
    ensures EncodeParts([p], boundary) == Err(UnexpectedLength(p.declared, |p.content|))
    ensures !AnyBroken([p]) && Flow([p], boundary) == PartFlow(p, boundary)
  {
    assert [p][1..] == [];
    assert PartFlow(p, boundary) + [] == PartFlow(p, boundary);
  }

  lemma {:induction false} PrependTwice(a: bytes, b: bytes, r: Result<bytes>)
    ensures Prepended(a, Prepended(b, r)) == Prepended(a + b, r)
  {
    if r.Ok? {
      assert a + (b + r.value) == (a + b) + r.value;
    }
  }

  lemma {:induction false} PrependNothing(r: Result<bytes>)
    ensures Prepended([], r) == r
  {
    if r.Ok? {
      assert [] + r.value == r.value;
    }
  }

  /** One part more has been encoded. */
  lemma {:induction false} EncodeStep(ps: seq<Part>, i: nat, encoded: bytes, boundary: bytes)
    requires i < |ps|
    ensures match EncodePart(ps[i], boundary)
            case Err(e) => Prepended(encoded, EncodeParts(ps[i..], boundary)) == Err(e)
            case Ok(data) =>
              Prepended(encoded, EncodeParts(ps[i..], boundary)) ==
                Prepended(encoded + data, EncodeParts(ps[i + 1..], boundary))
  {
    hide EncodePart, Prepended;
    assert ps[i..][0] == ps[i] && ps[i..][1..] == ps[i + 1..];
    match EncodePart(ps[i], boundary)
    case Err(e) => PrependError(encoded, e);
    case Ok(data) => PrependTwice(encoded, data, EncodeParts(ps[i + 1..], boundary));
  }

  lemma {:induction false} PrependError(a: bytes, e: EncodingError)
    ensures Prepended(a, Err(e)) == Err(e)
  {
  }

  lemma {:induction false} EncodeEnd(ps: seq<Part>, encoded: bytes, boundary: bytes)
    ensures Prepended(encoded, EncodeParts(ps[|ps|..], boundary)) == Ok(encoded)
  {
    assert encoded + [] == encoded;
  }

  // ----- the form

  /** Different parts read different streams. */
  ghost predicate Distinct(ps: seq<BodyPart>) {
    forall i, j | 0 <= i < j < |ps| :: ps[i] != ps[j] && ps[i].bodyStream != ps[j].bodyStream
  }

  lemma {:induction false} DistinctAppend(ps: seq<BodyPart>, p: BodyPart)
    requires Distinct(ps) && forall q | q in ps :: q != p && q.bodyStream != p.bodyStream
    ensures Distinct(ps + [p])
  {
    var qs := ps + [p];
    forall i, j | 0 <= i < j < |qs| ensures qs[i] != qs[j] && qs[i].bodyStream != qs[j].bodyStream {
      assert ps[i] in ps && qs[i] == ps[i];
    }
  }

  ghost predicate Ready(ps: seq<BodyPart>)
    reads set p | p in ps :: p.bodyStream
  {
    Distinct(ps) && forall i | 0 <= i < |ps| :: ps[i].bodyStream.Valid()
  }

  /** The parts from the i-th on are as recorded. */
  ghost predicate Pending(ps: seq<BodyPart>, i: nat, parts: seq<Part>)
    reads set j | i <= j < |ps| :: ps[j], set j | i <= j < |ps| :: ps[j].bodyStream
  {
    |parts| == |ps| && forall j | i <= j < |ps| :: ps[j].bodyStream.Valid() && ps[j].Now() == parts[j]
  }

  ghost function Parts(ps: seq<BodyPart>): (r: seq<Part>)
    reads ps, set p | p in ps :: p.bodyStream
    requires Ready(ps)
    ensures |r| == |ps| && forall i | 0 <= i < |ps| :: r[i] == ps[i].Now()
  {
    seq(|ps|, i
      requires 0 <= i < |ps| && ps[i].bodyStream.Valid()
      reads ps, set p | p in ps :: p.bodyStream
      => ps[i].Now())
  }

  lemma {:induction false} AppendedParts(ps: seq<BodyPart>, p: BodyPart, parts: seq<Part>)
    requires Distinct(ps + [p]) && p.bodyStream.Valid() && Pending(ps, 0, parts)
    ensures Ready(ps + [p]) && Parts(ps + [p]) == parts + [p.Now()]
  {
  }

  function ContentLengths(ps: seq<Part>): nat {
    if ps == [] then 0 else ContentLengths(ps[..|ps| - 1]) + ps[|ps| - 1].declared
  }

  class MultipartFormData {
    const boundary: bytes
    var bodyParts: seq<BodyPart>
    var bodyPartError: Option<EncodingError>

    ghost predicate Valid()
      reads this, set p | p in bodyParts :: p.bodyStream
    {
      Ready(bodyParts)
    }

    ghost function Now(): seq<Part>
      reads this, bodyParts, set p | p in bodyParts :: p.bodyStream
      requires Valid()
    {
      Parts(bodyParts)
    }

    constructor (boundary: bytes)
      ensures Valid() && bodyParts == [] && bodyPartError == None && this.boundary == boundary
    {
      this.boundary := boundary;
      bodyParts := [];
      bodyPartError := None;
    }

    method Append(stream: InputStream, length: nat, headers: seq<Header>)
      requires Valid() && stream.Valid() && forall p | p in bodyParts :: p.bodyStream != stream
      modifies this
      ensures Valid() && bodyPartError == old(bodyPartError)
      ensures Now() == old(Now()) + [Part(headers, stream.Remaining(), stream.broken, length, false, false)]
    {
      ghost var before, olds := Now(), bodyParts;
      var part := new BodyPart(headers, stream, length);
      DistinctAppend(bodyParts, part);
      hide Distinct;
      bodyParts := bodyParts + [part];
      assert Pending(olds, 0, before);
      AppendedParts(olds, part, before);
    }

    /** Only the first error is kept. */
    method SetBodyPartError(reason: nat)
      modifies this`bodyPartError
      ensures bodyPartError == if old(bodyPartError).Some? then old(bodyPartError) else Some(BodyPartFailed(reason))
    {
      if bodyPartError.Some? {
        return;
      }
      bodyPartError := Some(BodyPartFailed(reason));
    }

    method ContentLength() returns (length: nat)
      requires Valid()
      ensures length == ContentLengths(Now())
    {
      length := 0;
      for i := 0 to |bodyParts|
        invariant length == ContentLengths(Now()[..i])
      {
        assert Now()[..i + 1][..i] == Now()[..i];
        length := length + bodyParts[i].bodyContentLength;
      }
      assert Now()[..|bodyParts|] == Now();
    }

    /** The first and the last part are marked as such. */
    method Mark()
      requires Valid()
      modifies bodyParts
      ensures Valid() && Now() == Marked(old(Now()))
    {
      if |bodyParts| > 0 {
        bodyParts[0].hasInitialBoundary := true;
        bodyParts[|bodyParts| - 1].hasFinalBoundary := true;
      }
    }

    /** One part of encode's loop; the later ones stay as they are. */
    method EncodeOne(i: nat, ghost ps: seq<Part>) returns (result: Result<bytes>)
      requires Distinct(bodyParts) && Pending(bodyParts, i, ps) && i < |ps|
      modifies bodyParts[i].bodyStream
      ensures Pending(bodyParts, i + 1, ps) && result == EncodePart(ps[i], boundary)
    {
      result := bodyParts[i].Encode(boundary);
    }

    /** One part of writeEncodedData's loop. */
    method WriteOne(i: nat, ghost ps: seq<Part>, output: OutputStream) returns (result: Result<()>)
      requires Distinct(bodyParts) && Pending(bodyParts, i, ps) && i < |ps| && output.Valid()
      modifies bodyParts[i].bodyStream, output
      ensures Pending(bodyParts, i + 1, ps)
      ensures output.written == Sent(old(output.written), PartFlow(ps[i], boundary), output.room)
      ensures result == Ending(output.faulty, output.room, old(output.written), PartFlow(ps[i], boundary), ps[i].broken)
      ensures result.Ok? ==> output.Valid()
    {
      result := bodyParts[i].Write(boundary, output);
    }

    /** The loop of encode over the parts. */
    method EncodeAll(ghost ps: seq<Part>) returns (result: Result<bytes>)
      requires Distinct(bodyParts) && Pending(bodyParts, 0, ps)
      modifies set p | p in bodyParts :: p.bodyStream
      ensures result == EncodeParts(ps, boundary)
    {
      PrependNothing(EncodeParts(ps, boundary));
      assert ps[0..] == ps;
      hide EncodeParts, EncodePart, Prepended, Distinct;
      var encoded: bytes := [];
      var i := 0;
      while i < |bodyParts|
        invariant i <= |bodyParts| == |ps| && Pending(bodyParts, i, ps)
        invariant Prepended(encoded, EncodeParts(ps[i..], boundary)) == EncodeParts(ps, boundary)
      {
        EncodeStep(ps, i, encoded, boundary);
        var data := EncodeOne(i, ps);
        if data.Err? {
          return Err(data.error);
        }
        encoded := encoded + data.value;
        i := i + 1;
      }
      EncodeEnd(ps, encoded, boundary);
      return Ok(encoded);
    }

    /** encode */
    method Encode() returns (result: Result<bytes>)
      requires Valid()
      modifies bodyParts, set p | p in bodyParts :: p.bodyStream
      ensures bodyParts == old(bodyParts)
      ensures result == if bodyPartError.Some? then Err(bodyPartError.value)
          else EncodeParts(Marked(old(Now())), boundary)
    {
      if bodyPartError.Some? {
        return Err(bodyPartError.value);
      }
      Mark();
      result := EncodeAll(Now());
    }

    /** The loop of writeEncodedData over the parts. */
    method WriteAll(ghost ps: seq<Part>, output: OutputStream) returns (result: Result<()>)
      requires Distinct(bodyParts) && Pending(bodyParts, 0, ps) && output.Valid()
      modifies set p | p in bodyParts :: p.bodyStream, output
      ensures output.written == Sent(old(output.written), Flow(ps, boundary), output.room)
      ensures result == Ending(output.faulty, output.room, old(output.written), Flow(ps, boundary), AnyBroken(ps))
    {
      ghost var written, room, faulty, sent := output.written, output.room, output.faulty, [];
      NothingSent(ps, boundary, written, room, faulty);
      hide Sending, Flow, PartFlow, AnyBroken, Sent, Ending, Distinct;
      var i := 0;
      while i < |bodyParts|
        invariant i <= |bodyParts| == |ps| && Pending(bodyParts, i, ps) && output.Valid()
        invariant output.written == Sent(written, sent, room) && Sending(ps, i, boundary, written, sent, room, faulty)
      {
        result := WriteOne(i, ps, output);
        PartSent(ps, i, boundary, written, sent, room, faulty);
        if result.Err? {
          return;
        }
        sent := sent + PartFlow(ps[i], boundary);
        i := i + 1;
      }
      AllSent(ps, boundary, written, sent, room, faulty);
      return Ok(());
    }

    /** writeEncodedData, from where the output stream is open. */
    method WriteEncodedData(output: OutputStream) returns (result: Result<()>)
      requires Valid() && output.Valid()
      modifies bodyParts, set p | p in bodyParts :: p.bodyStream, output
      ensures bodyParts == old(bodyParts)
      ensures bodyPartError.Some? ==> result == Err(bodyPartError.value) && output.written == old(output.written)
      ensures bodyPartError.None? ==>
                && output.written == Sent(old(output.written), Flow(Marked(old(Now())), boundary), output.room)
                && result == Ending(output.faulty, output.room, old(output.written),
                  Flow(Marked(old(Now())), boundary), AnyBroken(old(Now())))
    {
      if bodyPartError.Some? {
        return Err(bodyPartError.value);
      }
      MarkedBroken(Now());
      Mark();
      result := WriteAll(Now(), output);
    }
  }

  lemma {:induction false} MarkedBroken(ps: seq<Part>)
    ensures AnyBroken(Marked(ps)) <==> AnyBroken(ps)
  {
    assert forall i | 0 <= i < |ps| :: Marked(ps)[i].broken == ps[i].broken;
  }

  /** One part more has been written. */
  lemma {:induction false} FlowStep(ps: seq<Part>, i: nat, sent: bytes, boundary: bytes)
    requires i < |ps|
    ensures !ps[i].broken ==>
              sent + Flow(ps[i..], boundary) == (sent + PartFlow(ps[i], boundary)) + Flow(ps[i + 1..], boundary)
    ensures ps[i].broken ==> sent + Flow(ps[i..], boundary) == sent + PartFlow(ps[i], boundary)
    ensures AnyBroken(ps[i..]) <==> ps[i].broken || AnyBroken(ps[i + 1..])
  {
    hide PartFlow;
    BrokenHead(ps[i..]);
    assert ps[i..][0] == ps[i] && ps[i..][1..] == ps[i + 1..];
    Assoc(sent, PartFlow(ps[i], boundary), Flow(ps[i + 1..], boundary));
    if ps[i].broken {
      assert PartFlow(ps[i], boundary) + [] == PartFlow(ps[i], boundary);
    }
  }

  /** The parts before the i-th have been sent and fitted. */
  predicate Sending(ps: seq<Part>, i: nat, boundary: bytes, written: bytes, sent: bytes, room: nat, faulty: bool) {
    && i <= |ps| && |written| <= room
    && Flow(ps, boundary) == sent + Flow(ps[i..], boundary) && (AnyBroken(ps) <==> AnyBroken(ps[i..]))
    && !(faulty && Overflows(written, sent, room))
  }

  lemma {:induction false} NothingSent(ps: seq<Part>, boundary: bytes, written: bytes, room: nat, faulty: bool)
    requires |written| <= room
    ensures Sending(ps, 0, boundary, written, [], room, faulty) && Sent(written, [], room) == written
  {
  }

  lemma {:induction false} PartSent(
    ps: seq<Part>, i: nat, boundary: bytes, written: bytes, sent: bytes, room: nat, faulty: bool)
    requires i < |ps| && Sending(ps, i, boundary, written, sent, room, faulty)
    ensures var data, before := PartFlow(ps[i], boundary), Sent(written, sent, room);
            var all := Flow(ps, boundary);
            && Sent(before, data, room) == Sent(written, sent + data, room)
            && match Ending(faulty, room, before, data, ps[i].broken)
               case Err(e) =>
                 Sent(before, data, room) == Sent(written, all, room) &&
                   Ending(faulty, room, written, all, AnyBroken(ps)) == Err(e)
               case Ok(_) => Sending(ps, i + 1, boundary, written, sent + data, room, faulty)
  {
    var data, rest := PartFlow(ps[i], boundary), Flow(ps[i + 1..], boundary);
    FlowStep(ps, i, sent, boundary);
    SentTwice(written, sent, data, room);
    SentMore(written, sent + data, rest, room);
    hide Flow, PartFlow, AnyBroken, Sent, Overflows;
  }

  lemma {:induction false} AllSent(ps: seq<Part>, boundary: bytes, written: bytes, sent: bytes, room: nat, faulty: bool)
    requires Sending(ps, |ps|, boundary, written, sent, room, faulty)
    ensures sent == Flow(ps, boundary) && Ending(faulty, room, written, sent, AnyBroken(ps)) == Ok(())
  {
  }

}
