/** The multipart-body form of section 5.1.1 of RFC 2046, and what a receiver makes of it. */
module MultipartForm {
  import opened Bits
  import opened Multipart
  import opened MultipartEncoders
  import opened Wrappers

  // ----- the grammar

  const NEWLINE: bytes := [0x0D, 0x0A]
  const HYPHENS: bytes := [0x2D, 0x2D]
  const SEPARATOR: bytes := [0x3A, 0x20]

  /** The lines of MIME-part-headers, and the empty line behind them. */
  function HeaderText(headers: seq<Header>): bytes {
    if headers == [] then NEWLINE
    else (headers[0].name + SEPARATOR + headers[0].value + NEWLINE) + HeaderText(headers[1..])
  }

  /** body-part */
  function Text(p: Part): bytes {
    HeaderText(p.headers) + p.content
  }

  /** delimiter */
  function Delimiter(boundary: bytes): bytes {
    NEWLINE + HYPHENS + boundary
  }

  /** body-part *encapsulation close-delimiter CRLF */
  function AfterFirst(texts: seq<bytes>, d: bytes): bytes
    requires texts != []
  {
    texts[0] + d + if |texts| == 1 then HYPHENS + NEWLINE else NEWLINE + AfterFirst(texts[1..], d)
  }

  /** multipart-body, without preamble and with an empty epilogue */
  function MultipartBody(texts: seq<bytes>, boundary: bytes): bytes
    requires texts != []
  {
    HYPHENS + boundary + NEWLINE + AfterFirst(texts, Delimiter(boundary))
  }

  function Texts(ps: seq<Part>): (r: seq<bytes>)
    ensures |r| == |ps| && forall i | 0 <= i < |ps| :: r[i] == Text(ps[i])
  {
    if ps == [] then [] else [Text(ps[0])] + Texts(ps[1..])
  }

  /** No encoder has marked the parts yet. */
  predicate Fresh(ps: seq<Part>) {
    forall i | 0 <= i < |ps| :: !ps[i].hasInitialBoundary && !ps[i].hasFinalBoundary
  }

  /** Parts of which exactly the last is marked as final, and none but possibly the first as initial. */
  predicate TailMarked(ps: seq<Part>) {
    && (forall i | 0 <= i < |ps| :: ps[i].hasFinalBoundary == (i == |ps| - 1))
    && (forall i | 0 < i < |ps| :: !ps[i].hasInitialBoundary)
  }

  // ----- the encoders produce the form

  lemma {:induction false} HeadersForm(headers: seq<Header>)
    ensures EncodeHeaders(headers) == HeaderText(headers)
  {
    if headers != [] {
      HeadersForm(headers[1..]);
      var line := headers[0].name + SEPARATOR + headers[0].value + NEWLINE;
      Assoc(line, HeaderLines(headers[1..]), CRLF);
    } else {
      assert HeaderLines([]) + CRLF == NEWLINE;
    }
  }

  lemma {:induction false} OnePart(p: Part, boundary: bytes)
    requires !p.broken
    ensures PartFlow(p, boundary) ==
            (if p.hasInitialBoundary then HYPHENS + boundary + NEWLINE else Delimiter(boundary) + NEWLINE)
            + (Text(p) + if p.hasFinalBoundary then Delimiter(boundary) + (HYPHENS + NEWLINE) else [])
  {
    HeadersForm(p.headers);
  }

  lemma {:induction false} TailForm(ps: seq<Part>, boundary: bytes)
    requires ps != [] && TailMarked(ps) && !AnyBroken(ps)
    ensures Flow(ps, boundary) ==
            (if ps[0].hasInitialBoundary then HYPHENS + boundary + NEWLINE else Delimiter(boundary) + NEWLINE)
            + AfterFirst(Texts(ps), Delimiter(boundary))
  {
    hide PartFlow, Text;
    var d, t, rest := Delimiter(boundary), Text(ps[0]), ps[1..];
    var opening := if ps[0].hasInitialBoundary then HYPHENS + boundary + NEWLINE else d + NEWLINE;
    OnePart(ps[0], boundary);
    BrokenHead(ps);
    assert Texts(ps)[1..] == Texts(rest);
    if rest == [] {
      assert Flow(ps, boundary) == PartFlow(ps[0], boundary);
      Assoc(t, d, HYPHENS + NEWLINE);
    } else {
      TailForm(rest, boundary);
      JoinParts(opening, t, d, AfterFirst(Texts(rest), d));
    }
  }

  lemma {:induction false} JoinParts(opening: bytes, t: bytes, d: bytes, after: bytes)
    ensures opening + (t + []) + (d + NEWLINE + after) == opening + (t + d + (NEWLINE + after))
  {
  }

  lemma {:induction false} MarkedForm(ps: seq<Part>)
    requires Fresh(ps) && ps != []
    ensures TailMarked(Marked(ps)) && Marked(ps)[0].hasInitialBoundary && Texts(Marked(ps)) == Texts(ps)
  {
  }

  /** A form with at least one part is encoded as a multipart body; one without any is encoded as nothing. */
  lemma {:induction false} EncodedForm(ps: seq<Part>, boundary: bytes)
    requires Fresh(ps)
    ensures EncodeParts(Marked(ps), boundary).Ok? <==> AllDeliverable(ps)
    ensures AllDeliverable(ps) ==>
              EncodeParts(Marked(ps), boundary) == Ok(if ps == [] then [] else MultipartBody(Texts(ps), boundary))
    ensures !AnyBroken(ps) ==>
              Flow(Marked(ps), boundary) == if ps == [] then [] else MultipartBody(Texts(ps), boundary)
  {
    EncodersAgree(Marked(ps), boundary);
    MarkedBroken(ps);
    MarkedDeliverable(ps);
    if ps != [] && !AnyBroken(ps) {
      MarkedForm(ps);
      TailForm(Marked(ps), boundary);
    }
  }

  lemma {:induction false} MarkedDeliverable(ps: seq<Part>)
    ensures AllDeliverable(Marked(ps)) <==> AllDeliverable(ps)
  {
    assert forall i | 0 <= i < |ps| :: Deliverable(Marked(ps)[i]) == Deliverable(ps[i]);
  }

  /** The encapsulated texts up to the k-th, without the delimiter behind it. */
  function UpTo(texts: seq<bytes>, k: nat, d: bytes): bytes
    requires k < |texts|
  {
    if k == 0 then texts[0] else texts[0] + d + (NEWLINE + UpTo(texts[1..], k - 1, d))
  }

  lemma {:induction false} CutPart(p: Part, boundary: bytes)
    requires p.broken
    ensures PartFlow(p, boundary) ==
            (if p.hasInitialBoundary then HYPHENS + boundary + NEWLINE else Delimiter(boundary) + NEWLINE) + Text(p)
  {
    HeadersForm(p.headers);
  }

  lemma {:induction false} TailCut(ps: seq<Part>, k: nat, boundary: bytes)
    requires k < |ps| && TailMarked(ps) && ps[k].broken && forall i | 0 <= i < k :: !ps[i].broken
    ensures Flow(ps, boundary) ==
            (if ps[0].hasInitialBoundary then HYPHENS + boundary + NEWLINE else Delimiter(boundary) + NEWLINE)
            + UpTo(Texts(ps), k, Delimiter(boundary))
  {
    hide PartFlow, Text;
    var d, t, rest := Delimiter(boundary), Text(ps[0]), ps[1..];
    var opening := if ps[0].hasInitialBoundary then HYPHENS + boundary + NEWLINE else d + NEWLINE;
    assert Texts(ps)[1..] == Texts(rest);
    if k == 0 {
      CutPart(ps[0], boundary);
      AppendNil(PartFlow(ps[0], boundary));
    } else {
      OnePart(ps[0], boundary);
      TailCut(rest, k - 1, boundary);
      JoinParts(opening, t, d, UpTo(Texts(rest), k - 1, d));
    }
  }

  lemma {:induction false} FormStarts(texts: seq<bytes>, k: nat, d: bytes) returns (rest: bytes)
    requires k < |texts|
    ensures AfterFirst(texts, d) == UpTo(texts, k, d) + (d + rest)
  {
    var t := texts[0];
    if k == 0 {
      rest := if |texts| == 1 then HYPHENS + NEWLINE else NEWLINE + AfterFirst(texts[1..], d);
      Assoc(t, d, rest);
    } else {
      rest := FormStarts(texts[1..], k - 1, d);
      Assoc(NEWLINE, UpTo(texts[1..], k - 1, d), d + rest);
      Assoc(t + d, NEWLINE + UpTo(texts[1..], k - 1, d), d + rest);
    }
  }

  lemma {:induction false} MarkedStreams(ps: seq<Part>)
    ensures forall i | 0 <= i < |ps| :: Marked(ps)[i].broken == ps[i].broken
  {
  }

  /** If a stream fails, the bytes sent are those of the form up to the last byte that it delivered. */
  lemma {:induction false} CutForm(ps: seq<Part>, k: nat, boundary: bytes) returns (rest: bytes)
    requires Fresh(ps) && k < |ps| && ps[k].broken && forall i | 0 <= i < k :: !ps[i].broken
    ensures MultipartBody(Texts(ps), boundary) == Flow(Marked(ps), boundary) + (Delimiter(boundary) + rest)
  {
    hide AfterFirst, UpTo, Flow, Marked, TailMarked, Fresh, Delimiter, Text;
    var d, opening := Delimiter(boundary), HYPHENS + boundary + NEWLINE;
    MarkedForm(ps);
    MarkedStreams(ps);
    TailCut(Marked(ps), k, boundary);
    rest := FormStarts(Texts(ps), k, d);
    Assoc(opening, UpTo(Texts(ps), k, d), d + rest);
  }

  // ----- a receiver

  predicate OccursAt(d: bytes, s: bytes, i: nat) {
    i + |d| <= |s| && s[i..i + |d|] == d
  }

  predicate Occurs(d: bytes, s: bytes) {
    exists i | 0 <= i <= |s| :: OccursAt(d, s, i)
  }

  /** The first occurrence of d in s from i on. */
  function Find(d: bytes, s: bytes, i: nat): (r: Option<nat>)
    ensures r.None? ==> forall j: nat | i <= j :: !OccursAt(d, s, j)
    ensures r.Some? ==>
              i <= r.value && OccursAt(d, s, r.value) && forall j: nat | i <= j < r.value :: !OccursAt(d, s, j)
    decreases |s| - i
  {
    if i + |d| > |s| then None else if s[i..i + |d|] == d then Some(i) else Find(d, s, i + 1)
  }

  /** The body parts up to the close-delimiter; what follows it is ignored. */
  function ReceiveParts(s: bytes, d: bytes): Option<seq<bytes>>
    decreases |s|
  {
    match Find(d, s, 0)
    case None => None
    case Some(i) =>
      var rest := s[i + |d|..];
      if |rest| < 2 then None
      else if rest[..2] == HYPHENS then Some([s[..i]])
      else if rest[..2] == NEWLINE then
        (match ReceiveParts(rest[2..], d)
         case None => None
         case Some(ts) => Some([s[..i]] + ts))
      else None
  }

  /** Reads a multipart body without preamble. */
  function Receive(s: bytes, boundary: bytes): Option<seq<bytes>> {
    var opening := HYPHENS + boundary + NEWLINE;
    if |s| >= |opening| && s[..|opening|] == opening then ReceiveParts(s[|opening|..], Delimiter(boundary)) else None
  }

  predicate Free(texts: seq<bytes>, d: bytes) {
    forall i | 0 <= i < |texts| :: !Occurs(d, texts[i])
  }

  /** The delimiter that follows a text is the first one, unless the text contains one: it starts with its only CR. */
  lemma {:induction false} FirstDelimiter(t: bytes, boundary: bytes, rest: bytes)
    requires 13 !in boundary && !Occurs(Delimiter(boundary), t)
    ensures Find(Delimiter(boundary), t + Delimiter(boundary) + rest, 0) == Some(|t|)
  {
    var d := Delimiter(boundary);
    var s := t + d + rest;
    assert OccursAt(d, s, |t|);
    forall i: nat | i < |t| ensures !OccursAt(d, s, i) {
      if OccursAt(d, s, i) {
        NoOverlap(t, boundary, rest, i);
      }
    }
  }

  lemma {:induction false} NoStraddling(t: bytes, boundary: bytes, rest: bytes, i: nat)
    requires i < |t| < i + |Delimiter(boundary)| && 13 !in boundary
    ensures !OccursAt(Delimiter(boundary), t + Delimiter(boundary) + rest, i)
  {
    var d, k := Delimiter(boundary), |t| - i;
    var s := t + d + rest;
    assert s[i..i + |d|][k] == s[|t|] == 13;
    assert k >= 4 ==> d[k] == boundary[k - 4];
  }

  lemma {:induction false} NoOverlap(t: bytes, boundary: bytes, rest: bytes, i: nat)
    requires i < |t| && OccursAt(Delimiter(boundary), t + Delimiter(boundary) + rest, i)
    requires 13 !in boundary
    ensures OccursAt(Delimiter(boundary), t, i)
  {
    var d := Delimiter(boundary);
    var s := t + d + rest;
    if i + |d| <= |t| {
      assert s[i..i + |d|] == t[i..i + |d|];
    } else {
      NoStraddling(t, boundary, rest, i);
    }
  }

  lemma {:induction false} ReceiveStep(t: bytes, boundary: bytes, rest: bytes)
    requires 13 !in boundary && !Occurs(Delimiter(boundary), t) && |rest| >= 2
    ensures ReceiveParts(t + Delimiter(boundary) + rest, Delimiter(boundary)) ==
            if rest[..2] == HYPHENS then Some([t])
            else if rest[..2] != NEWLINE then None
            else match ReceiveParts(rest[2..], Delimiter(boundary)) case None => None case Some(ts) => Some([t] + ts)
  {
    var d := Delimiter(boundary);
    var s := t + d + rest;
    FirstDelimiter(t, boundary, rest);
    assert s[..|t|] == t && s[|t| + |d|..] == rest;
  }

  lemma {:induction false} ReceivesTexts(texts: seq<bytes>, boundary: bytes)
    requires texts != [] && 13 !in boundary && Free(texts, Delimiter(boundary))
    ensures ReceiveParts(AfterFirst(texts, Delimiter(boundary)), Delimiter(boundary)) == Some(texts)
  {
    var d := Delimiter(boundary);
    hide Delimiter, ReceiveParts, Find, Occurs;
    if |texts| == 1 {
      ReceiveStep(texts[0], boundary, HYPHENS + NEWLINE);
      assert (HYPHENS + NEWLINE)[..2] == HYPHENS && texts == [texts[0]];
    } else {
      var after := AfterFirst(texts[1..], d);
      ReceiveStep(texts[0], boundary, NEWLINE + after);
      assert (NEWLINE + after)[2..] == after && (NEWLINE + after)[..2] == NEWLINE && NEWLINE[0] != HYPHENS[0];
      ReceivesTexts(texts[1..], boundary);
      assert texts == [texts[0]] + texts[1..];
    }
  }

  lemma {:induction false} PrefixOccurs(d: bytes, s: bytes, n: nat, j: nat)
    requires n <= |s| && OccursAt(d, s[..n], j)
    ensures OccursAt(d, s, j)
  {
    assert s[..n][j..j + |d|] == s[j..j + |d|];
  }

  lemma {:induction false} BeforeFirst(s: bytes, d: bytes)
    requires |d| > 0 && Find(d, s, 0).Some?
    ensures !Occurs(d, s[..Find(d, s, 0).value])
  {
    var t := s[..Find(d, s, 0).value];
    forall j: nat ensures !OccursAt(d, t, j) {
      if OccursAt(d, t, j) {
        PrefixOccurs(d, s, |t|, j);
      }
    }
  }

  lemma {:induction false} ReceivedFree(s: bytes, d: bytes)
    requires ReceiveParts(s, d).Some? && |d| > 0
    ensures Free(ReceiveParts(s, d).value, d)
    decreases |s|
  {
    hide Occurs;
    var i := Find(d, s, 0).value;
    var rest := s[i + |d|..];
    BeforeFirst(s, d);
    if rest[..2] != HYPHENS {
      ReceivedFree(rest[2..], d);
    }
  }

  /** The receiver gets back exactly the parts that were sent, if and only if none of them contains the delimiter. */
  lemma {:induction false} ReceivesWhatWasSent(ps: seq<Part>, boundary: bytes)
    requires Fresh(ps) && ps != [] && AllDeliverable(ps) && 13 !in boundary
    ensures EncodeParts(Marked(ps), boundary).Ok?
    ensures Receive(EncodeParts(Marked(ps), boundary).value, boundary) == Some(Texts(ps)) <==>
        Free(Texts(ps), Delimiter(boundary))
  {
    var texts, d := Texts(ps), Delimiter(boundary);
    EncodedForm(ps, boundary);
    var opening, after := HYPHENS + boundary + NEWLINE, AfterFirst(texts, d);
    assert (opening + after)[..|opening|] == opening && (opening + after)[|opening|..] == after;
    if Free(texts, d) {
      ReceivesTexts(texts, boundary);
    }
    if ReceiveParts(after, d) == Some(texts) {
      ReceivedFree(after, d);
    }
  }

  // ----- the headers of a received part

  /** The header lines up to the empty one, and what follows. */
  function ParseText(s: bytes): Option<(seq<Header>, bytes)>
    decreases |s|
  {
    if |s| >= 2 && s[..2] == NEWLINE then Some(([], s[2..]))
    else
      match Find(NEWLINE, s, 0)
      case None => None
      case Some(i) =>
        (match Find(SEPARATOR, s[..i], 0)
         case None => None
         case Some(k) =>
           (match ParseText(s[i + 2..])
            case None => None
            case Some((headers, content)) => Some(([Header(s[..k], s[k + 2..i])] + headers, content))))
  }

  /** A header that keeps to its line, with a name that ends at the first colon. */
  predicate OneLine(h: Header) {
    13 !in h.name && 13 !in h.value && 58 !in h.name
  }

  lemma {:induction false} FirstMark(t: bytes, d: bytes, rest: bytes)
    requires |d| > 0 && d[0] !in t
    ensures Find(d, t + d + rest, 0) == Some(|t|)
  {
    var s := t + d + rest;
    assert OccursAt(d, s, |t|);
    forall i: nat | i < |t| ensures !OccursAt(d, s, i) {
      assert i + |d| <= |s| ==> s[i..i + |d|][0] == t[i];
    }
  }

  lemma {:induction false} ParseLine(h: Header, rest: bytes)
    requires OneLine(h)
    ensures ParseText(h.name + SEPARATOR + h.value + NEWLINE + rest) ==
            match ParseText(rest) case None => None case Some((hs, content)) => Some(([h] + hs, content))
  {
    var line := h.name + SEPARATOR + h.value;
    var s := line + NEWLINE + rest;
    assert s[0] == line[0] && line[0] != 13;
    FirstMark(line, NEWLINE, rest);
    FirstMark(h.name, SEPARATOR, h.value);
    assert s[..|line|] == line && s[|line| + 2..] == rest;
    assert s[..|h.name|] == h.name && s[|h.name| + 2..|line|] == h.value;
  }

  lemma {:induction false} ParsesHeaders(headers: seq<Header>, content: bytes)
    requires forall i | 0 <= i < |headers| :: OneLine(headers[i])
    ensures ParseText(HeaderText(headers) + content) == Some((headers, content))
  {
    if headers == [] {
      assert (NEWLINE + content)[..2] == NEWLINE && (NEWLINE + content)[2..] == content;
    } else {
      var h, rest := headers[0], HeaderText(headers[1..]) + content;
      ParseLine(h, rest);
      ParsesHeaders(headers[1..], content);
      Assoc(h.name + SEPARATOR + h.value + NEWLINE, HeaderText(headers[1..]), content);
      assert headers == [h] + headers[1..];
    }
  }

  /** The receiver of an encoded form gets the headers and the content of every part. */
  lemma {:induction false} PartsRoundTrip(ps: seq<Part>, boundary: bytes, i: nat)
    requires Fresh(ps) && i < |ps| && AllDeliverable(ps) && 13 !in boundary
    requires Free(Texts(ps), Delimiter(boundary)) && forall k | 0 <= k < |ps[i].headers| :: OneLine(ps[i].headers[k])
    ensures EncodeParts(Marked(ps), boundary).Ok?
    ensures var received := Receive(EncodeParts(Marked(ps), boundary).value, boundary);
            && received.Some? && |received.value| == |ps|
            && ParseText(received.value[i]) == Some((ps[i].headers, ps[i].content))
  {
    ReceivesWhatWasSent(ps, boundary);
    ParsesHeaders(ps[i].headers, ps[i].content);
  }

  // ----- lengths

  function Total(texts: seq<bytes>): nat {
    if texts == [] then 0 else |texts[0]| + Total(texts[1..])
  }

  lemma {:induction false} AfterFirstLength(texts: seq<bytes>, d: bytes)
    requires texts != []
    ensures |AfterFirst(texts, d)| == Total(texts) + |texts| * (|d| + 2) + 2
  {
    if |texts| > 1 {
      AfterFirstLength(texts[1..], d);
      assert |texts| * (|d| + 2) == |texts[1..]| * (|d| + 2) + (|d| + 2);
    }
  }

  /** The sizes of the headers. */
  function HeaderLengths(ps: seq<Part>): nat {
    if ps == [] then 0 else |HeaderText(ps[0].headers)| + HeaderLengths(ps[1..])
  }

  lemma {:induction false} LengthsCons(ps: seq<Part>)
    requires ps != []
    ensures ContentLengths(ps) == ps[0].declared + ContentLengths(ps[1..])
    decreases |ps|
  {
    if |ps| == 1 {
      assert ps[..0] == [] == ps[1..];
    } else {
      var before := ps[..|ps| - 1];
      LengthsCons(before);
      assert before[1..] == ps[1..][..|ps[1..]| - 1];
    }
  }

  lemma {:induction false} TextLengths(ps: seq<Part>)
    requires AllDeliverable(ps)
    ensures Total(Texts(ps)) == ContentLengths(ps) + HeaderLengths(ps)
  {
    if ps != [] {
      AllHead(ps);
      TextLengths(ps[1..]);
      LengthsCons(ps);
      assert Texts(ps)[1..] == Texts(ps[1..]);
    }
  }

  /** What contentLength leaves out of the length of an encoded form: the headers and the delimiters. */
  lemma {:induction false} EncodedLength(ps: seq<Part>, boundary: bytes)
    requires Fresh(ps) && ps != [] && AllDeliverable(ps)
    ensures EncodeParts(Marked(ps), boundary).Ok?
    ensures |EncodeParts(Marked(ps), boundary).value| ==
            ContentLengths(ps) + HeaderLengths(ps) + (|ps| + 1) * (|boundary| + 6)
  {
    hide AfterFirst, EncodeParts, Marked;
    EncodedForm(ps, boundary);
    TextLengths(ps);
    AfterFirstLength(Texts(ps), Delimiter(boundary));
    assert (|ps| + 1) * (|boundary| + 6) == |ps| * (|boundary| + 6) + (|boundary| + 6);
  }
}
