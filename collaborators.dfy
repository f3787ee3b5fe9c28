/**
  The values exchanged between the serialization facade and its three
  collaborators (validator, encoder, decoder), the facade's error kinds,
  its per-call options, and the events of a call log.

  Values (V), binary buffers (B) and schema nodes (S) stay opaque type
  parameters: the facade only passes them along.
 */
module Collaborators {

  /** A key of the schema registry, e.g. "a/b/Test". */
  type SchemaId = string

  /** What the validator reports: success, or failure with the message of its original error. */
  datatype Verdict = Valid | Invalid(message: string)

  /** What the decoder does: it returns a value, or it throws. */
  datatype Decoding<V> = Decoded(value: V) | DecodeThrew(reason: string)

  /** The ways an encode or decode call can fail. */
  datatype Error =
    | SchemaNotFound(schemaId: SchemaId)
    | InvalidValue(message: string)
    | InvalidDecodedValue(message: string)
    | DecoderFailed(reason: string)

  datatype Result<R> = Success(value: R) | Failure(error: Error)

  datatype Option<T> = None | Some(value: T)

  /** The optional `{ skipValidate?: boolean }` argument of encode and decode. */
  datatype CallOptions = CallOptions(skipValidate: Option<bool>)

  /** Validation is bypassed only when options are given and skipValidate is true. */
  predicate ValidationSkipped(options: Option<CallOptions>)
  {
    options.Some? && options.value.skipValidate == Some(true)
  }

  /** One call from the facade into a collaborator, with the argument and the answer. */
  datatype Call<V, B, S> =
    | ValidateCall(value: V, schema: S, verdict: Verdict)
    | EncodeCall(value: V, schema: S, output: B)
    | DecodeCall(buf: B, schema: S, outcome: Decoding<V>)

  /** The outcome of one facade operation together with the collaborator calls it made, in order. */
  datatype Run<R, V, B, S> = Run(result: Result<R>, calls: seq<Call<V, B, S>>)

  predicate CallsValidator<V, B, S>(calls: seq<Call<V, B, S>>)
  {
    exists i :: 0 <= i < |calls| && calls[i].ValidateCall?
  }

  predicate CallsEncoder<V, B, S>(calls: seq<Call<V, B, S>>)
  {
    exists i :: 0 <= i < |calls| && calls[i].EncodeCall?
  }

  /** One call of the facade made by an application. */
  datatype Request<V, B> =
    | EncodeRequest(value: V, schemaId: SchemaId, options: Option<CallOptions>)
    | DecodeRequest(buf: B, schemaId: SchemaId, options: Option<CallOptions>)

  /**
    Across a whole log, the encoder is only ever given a value and schema
    that the validator accepted earlier in the log.
   */
  ghost predicate EncoderGated<V, B, S>(calls: seq<Call<V, B, S>>)
  {
    forall i :: 0 <= i < |calls| && calls[i].EncodeCall? ==>
      exists j :: 0 <= j < i && calls[j] == ValidateCall(calls[i].value, calls[i].schema, Valid)
  }

  /** Appending a gated log to a gated log gives a gated log. */
  lemma GatedAppend<V, B, S>(a: seq<Call<V, B, S>>, b: seq<Call<V, B, S>>)
    requires EncoderGated(a) && EncoderGated(b)
    ensures EncoderGated(a + b)
  {
    var ab := a + b;
    forall i | 0 <= i < |ab| && ab[i].EncodeCall?
      ensures exists j :: 0 <= j < i && ab[j] == ValidateCall(ab[i].value, ab[i].schema, Valid)
    {
      if i < |a| {
        var j :| 0 <= j < i && a[j] == ValidateCall(a[i].value, a[i].schema, Valid);
        assert ab[j] == a[j];
      } else {
        var k := i - |a|;
        assert ab[i] == b[k];
        var j :| 0 <= j < k && b[j] == ValidateCall(b[k].value, b[k].schema, Valid);
        assert ab[|a| + j] == b[j];
      }
    }
  }
}
