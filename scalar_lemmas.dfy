/** Properties of the nullable scalar wrappers (scalar.go). */
module ScalarLemmas {
  import opened Wrappers
  import opened Scalar

  /**
   * Encoding then decoding into any receiver restores validity, and the payload
   * when valid; decoding `null` keeps the receiver's old payload. Nothing fails.
   */
  lemma RoundTrip<T>(v: Nullable<T>, receiver: Nullable<T>)
    ensures var d := receiver.Unmarshal(v.MarshalJSON());
            && d.err == None
            && d.state.valid == v.valid
            && (v.valid ==> d.state == v)
            && (!v.valid ==> d.state.payload == receiver.payload)
  {
  }

  /** The other direction: whatever decodes without error is encoded back to the same JSON. */
  lemma DecodeThenEncode<T>(receiver: Nullable<T>, data: Json<T>)
    requires !data.JBad?
    ensures receiver.Unmarshal(data).state.MarshalJSON() == data
  {
  }

  /** Decoding the same input twice leaves the receiver as decoding it once. */
  lemma UnmarshalIdempotent<T>(receiver: Nullable<T>, data: Json<T>)
    ensures receiver.Unmarshal(data).state.Unmarshal(data) == receiver.Unmarshal(data)
  {
  }

  /** The same round trip through a receiver in memory, as `UnmarshalJSON` performs it. */
  method RoundTripInPlace<T>(v: Nullable<T>, receiver: NullableRef<T>) returns (err: Option<JsonError>)
    modifies receiver
    ensures err == None
    ensures receiver.valid == v.valid
    ensures v.valid ==> receiver.payload == v.payload
    ensures !v.valid ==> receiver.payload == old(receiver.payload)
  {
    err := receiver.UnmarshalJSON(v.MarshalJSON());
  }
}
