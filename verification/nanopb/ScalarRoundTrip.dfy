/** Every scalar data item survives encoding and decoding, whatever bytes follow it. */
module ScalarRoundTrip {
  import opened Bits
  import opened Descriptor
  import opened Varint
  import opened WireDecode
  import opened WireEncode
  import opened Wrappers

  lemma {:induction false} FixedRoundTrip(n: nat, k: nat)
    requires n < Pow2(8 * k)
    ensures LEValue(LEBytes(n, k)) == n
  {
    if k > 0 {
      Pow2Values();
      Pow2Add(8, 8 * (k - 1));
      assert 8 + 8 * (k - 1) == 8 * k;
      FixedRoundTrip(n / 256, k - 1);
      assert LEBytes(n, k)[1..] == LEBytes(n / 256, k - 1);
    }
  }

  lemma {:induction false} TakeExact(b: bytes, t: bytes)
    ensures Take(|b|, b + t) == Parsed(b, t)
  {
  }

  /** A length-delimited payload comes back, and nothing behind it is touched. */
  lemma {:induction false} StringRoundTrip(b: bytes, t: bytes)
    requires |b| < TWO32
    ensures LengthPrefixed(b) + t == VarintBytes(|b|) + (b + t)
    ensures Dec32(LengthPrefixed(b) + t) == Parsed(|b|, b + t)
    ensures TakeString(LengthPrefixed(b) + t) == Parsed(b, t)
  {
    Assoc(VarintBytes(|b|), b, t);
    Varint32RoundTrip(|b|, b + t);
    TakeExact(b, t);
  }

  /** An int of any width is sign-extended to 64 bits and narrowed back, the overflow check silent. */
  lemma {:induction false} SignedSurvives(n: int, size: nat)
    requires IsIntSize(size) && FitsSigned(n, size)
    ensures NarrowSigned(n % TWO64, size) == Some(n)
  {
    var w := if size == 8 then 8 else 4;
    assert FitsSigned(n, w);
    if size == 8 {
      assert (n % TWO64) % TWO64 == n % TWO64;
    } else {
      ModOfMod(n);
    }
    CastSignedFits(n, w);
    assert CastSigned(n % TWO64, w) == CastSigned(n, w);
    CastSignedFits(n, size);
  }

  lemma {:induction false} ModOfMod(n: int)
    ensures (n % TWO64) % TWO32 == n % TWO32
  {
  }

  lemma {:induction false} UnsignedSurvives(n: nat, size: nat)
    requires IsIntSize(size) && FitsUnsigned(n, size)
    ensures n % TWO64 == n && NarrowUnsigned(n, size) == Some(n)
  {
  }

  lemma {:induction false} ZigZagSurvives(n: int, size: nat)
    requires IsIntSize(size) && FitsSigned(n, size)
    ensures CastSigned(n, 8) == n && ZigZag(n) < TWO64 && NarrowZigZag(ZigZag(n), size) == Some(n)
  {
    CastSignedFits(n, size);
    CastSignedFits(n, 8);
  }

  /** What decoding gives for a scalar: the value, a string being cut at its first NUL. */
  function Canonical(f: Field, v: Value): Value {
    if f.ltype.String? && v.Text? then Text(TextContent(f, v.chars) + [0]) else v
  }

  lemma {:induction false} BoolRoundTrip(f: Field, v: Value, t: bytes)
    requires f.ltype.Bool? && ScalarFits(f, v)
    ensures EncElem(f, v).Some? && DecScalar(f, EncElem(f, v).value + t) == Parsed(v, t)
  {
  }

  lemma {:induction false} VarintFieldRoundTrip(f: Field, v: Value, t: bytes)
    requires f.ltype.Varint? && ScalarFits(f, v)
    ensures EncElem(f, v).Some? && DecScalar(f, EncElem(f, v).value + t) == Parsed(v, t)
  {
    SignedSurvives(v.n, f.dataSize);
    VarintRoundTrip(v.n % TWO64, t);
  }

  lemma {:induction false} UVarintFieldRoundTrip(f: Field, v: Value, t: bytes)
    requires f.ltype.UVarint? && ScalarFits(f, v)
    ensures EncElem(f, v).Some? && DecScalar(f, EncElem(f, v).value + t) == Parsed(v, t)
  {
    UnsignedSurvives(v.n, f.dataSize);
    VarintRoundTrip(v.n, t);
  }

  lemma {:induction false} SVarintFieldRoundTrip(f: Field, v: Value, t: bytes)
    requires f.ltype.SVarint? && ScalarFits(f, v)
    ensures EncElem(f, v).Some? && DecScalar(f, EncElem(f, v).value + t) == Parsed(v, t)
  {
    ZigZagSurvives(v.n, f.dataSize);
    VarintRoundTrip(ZigZag(v.n), t);
  }

  lemma {:induction false} WordSurvives(n: nat, k: nat, t: bytes)
    requires n < Pow2(8 * k)
    ensures Take(k, LEBytes(n, k) + t) == Parsed(LEBytes(n, k), t) && LEValue(LEBytes(n, k)) == n
  {
    FixedRoundTrip(n, k);
    TakeExact(LEBytes(n, k), t);
  }

  lemma {:induction false} Fixed32RoundTrip(f: Field, v: Value, t: bytes)
    requires f.ltype.Fixed32? && ScalarFits(f, v)
    ensures EncElem(f, v).Some? && DecScalar(f, EncElem(f, v).value + t) == Parsed(v, t)
  {
    Pow2Values();
    WordSurvives(v.n, 4, t);
    assert v.n % TWO32 == v.n;
  }

  lemma {:induction false} Fixed64RoundTrip(f: Field, v: Value, t: bytes)
    requires f.ltype.Fixed64? && ScalarFits(f, v)
    ensures EncElem(f, v).Some? && DecScalar(f, EncElem(f, v).value + t) == Parsed(v, t)
  {
    Pow2Values();
    WordSurvives(v.n, 8, t);
    assert v.n % TWO64 == v.n;
  }

  lemma {:induction false} BytesRoundTrip(f: Field, v: Value, t: bytes)
    requires f.ltype.Bytes? && WellFormedField(f) && ScalarFits(f, v)
    ensures EncElem(f, v).Some? && DecScalar(f, EncElem(f, v).value + t) == Parsed(v, t)
  {
    StringRoundTrip(v.b, t);
    TakeExact(v.b, t);
    assert BytesCapacity(f) % TWO64 == BytesCapacity(f);
  }

  lemma {:induction false} TextRoundTrip(f: Field, v: Value, t: bytes)
    requires f.ltype.String? && WellFormedField(f) && ScalarFits(f, v)
    ensures EncElem(f, v).Some? && DecScalar(f, EncElem(f, v).value + t) == Parsed(Canonical(f, v), t)
  {
    hide Dec32, TakeString, LengthPrefixed;
    var b := TextContent(f, v.chars);
    TextFits(f, v.chars);
    StringRoundTrip(b, t);
    TakeExact(b, t);
  }

  lemma {:induction false} TextFits(f: Field, chars: bytes)
    requires |chars| <= f.dataSize <= PB_SIZE_MAX && StrLen(chars) < |chars|
    ensures |TextContent(f, chars)| == StrLen(chars) < f.dataSize < TWO32
  {
  }

  lemma {:induction false} FixedLengthRoundTrip(f: Field, v: Value, t: bytes)
    requires f.ltype.FixedLengthBytes? && WellFormedField(f) && ScalarFits(f, v)
    ensures EncElem(f, v).Some? && DecScalar(f, EncElem(f, v).value + t) == Parsed(v, t)
  {
    StringRoundTrip(v.b, t);
    TakeExact(v.b, t);
    if v.b == [] {
      AppendNil(t);
    }
  }

  lemma {:induction false} ScalarRun(f: Field, v: Value, t: bytes)
    requires WellFormedField(f) && ScalarFits(f, v)
    ensures EncElem(f, v).Some? && DecScalar(f, EncElem(f, v).value + t) == Parsed(Canonical(f, v), t)
  {
    match f.ltype
    case Bool => BoolRoundTrip(f, v, t);
    case Varint => VarintFieldRoundTrip(f, v, t);
    case UVarint => UVarintFieldRoundTrip(f, v, t);
    case SVarint => SVarintFieldRoundTrip(f, v, t);
    case Fixed32 => Fixed32RoundTrip(f, v, t);
    case Fixed64 => Fixed64RoundTrip(f, v, t);
    case Bytes => BytesRoundTrip(f, v, t);
    case String => TextRoundTrip(f, v, t);
    case FixedLengthBytes => FixedLengthRoundTrip(f, v, t);
    case Submessage =>
  }
}
