/** pb_decode gives back what pb_encode was given. */
module RoundTrip {
  import opened Descriptor
  import opened Equality
  import opened MergeRun
  import opened Merging
  import opened WireDecode
  import opened WireEncode

  /**
   The round trip: the encoding of any encodable message is decoded without error, to the
   last byte, into an equal message.
   */
  lemma {:induction false} RoundTrips(fields: seq<Field>, m: Msg)
    requires WellFormed(fields) && Encodable(fields, m)
    ensures EncMsg(fields, m).Some?
    ensures var p := Decode(fields, EncMsg(fields, m).value);
            p.Parsed? && p.rest == [] && SameMsg(fields, m, p.value)
  {
    MsgRun(fields, m, Defaults(fields));
    MergeDefaults(fields, m);
  }

  /** Messages with the same encoding are equal. */
  lemma {:induction false} EncodingInjective(fields: seq<Field>, a: Msg, b: Msg)
    requires WellFormed(fields) && Encodable(fields, a) && Encodable(fields, b)
    requires EncMsg(fields, a) == EncMsg(fields, b)
    ensures SameMsg(fields, a, b)
  {
    RoundTrips(fields, a);
    RoundTrips(fields, b);
    SameMsgs(fields, a, b, Decode(fields, EncMsg(fields, a).value).value);
  }
}
