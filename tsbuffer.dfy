/**
  The TSBuffer facade: a schema registry and three collaborators, fixed at
  construction, and the two operations `Encode` and `Decode` that run schema
  lookup, optional validation and the codec call in a fixed order.

  Each operation returns a `Run`: its result and the log of the collaborator
  calls it made. Every collaborator call goes through a logging helper, one
  per collaborator, so the log entries carry exactly the arguments passed and
  the answers the rest of the operation used.
 */
module TSBufferFacade {
  import opened Collaborators

  class TSBuffer<V(!new), B, S(!new)> {
    const proto: map<SchemaId, S>
    const validator: (V, S) -> Verdict
    const encoder: (V, S) -> B
    const decoder: (B, S) -> Decoding<V>

    /** The validator is built from the registry; encoder and decoder are built from that validator. */
    constructor (
      p: map<SchemaId, S>,
      newValidator: map<SchemaId, S> -> ((V, S) -> Verdict),
      newEncoder: ((V, S) -> Verdict) -> ((V, S) -> B),
      newDecoder: ((V, S) -> Verdict) -> ((B, S) -> Decoding<V>))
      ensures proto == p
      ensures validator == newValidator(p)
      ensures encoder == newEncoder(validator) && decoder == newDecoder(validator)
    {
      proto := p;
      validator := newValidator(p);
      encoder := newEncoder(newValidator(p));
      decoder := newDecoder(newValidator(p));
    }

    /** Every answer recorded in the log is the one the named collaborator gives for the recorded arguments. */
    ghost predicate AnswersFaithful(calls: seq<Call<V, B, S>>)
    {
      forall c :: c in calls ==>
        match c
        case ValidateCall(value, schema, verdict) => verdict == validator(value, schema)
        case EncodeCall(value, schema, output) => output == encoder(value, schema)
        case DecodeCall(buf, schema, outcome) => outcome == decoder(buf, schema)
    }

    function Validate(value: V, schema: S, log: seq<Call<V, B, S>>): (r: (Verdict, seq<Call<V, B, S>>))
    {
      var verdict := validator(value, schema);
      (verdict, log + [ValidateCall(value, schema, verdict)])
    }

    function EncodeBy(value: V, schema: S, log: seq<Call<V, B, S>>): (r: (B, seq<Call<V, B, S>>))
    {
      var output := encoder(value, schema);
      (output, log + [EncodeCall(value, schema, output)])
    }

    function DecodeBy(buf: B, schema: S, log: seq<Call<V, B, S>>): (r: (Decoding<V>, seq<Call<V, B, S>>))
    {
      var outcome := decoder(buf, schema);
      (outcome, log + [DecodeCall(buf, schema, outcome)])
    }

    /** Encodes `value` with the schema registered under `schemaId`. */
    function Encode(value: V, schemaId: SchemaId, options: Option<CallOptions>): (run: Run<B, V, B, S>)
      // An unknown id fails fast, before any collaborator is called.
      ensures schemaId !in proto ==> run == Run(Failure(SchemaNotFound(schemaId)), [])
      // Each logged answer is the collaborator's; at most two calls are made.
      ensures AnswersFaithful(run.calls) && |run.calls| <= 2
      // Skipping validation makes exactly one call, to the encoder.
      ensures schemaId in proto && ValidationSkipped(options) ==>
                run.calls == [EncodeCall(value, proto[schemaId], encoder(value, proto[schemaId]))]
      // Every call made passes the value itself and the schema the lookup found; the decoder is never used.
      ensures forall c :: c in run.calls ==>
                schemaId in proto && !c.DecodeCall? && c.value == value && c.schema == proto[schemaId]
      // The validator runs exactly when the schema is known and validation is not skipped.
      ensures CallsValidator(run.calls) <==> schemaId in proto && !ValidationSkipped(options)
      // The encoder only ever runs after the validator accepted that same value and schema, unless skipped.
      ensures !ValidationSkipped(options) ==> EncoderGated(run.calls)
      // A rejected value fails with the validator's message and is never encoded.
      ensures schemaId in proto && !ValidationSkipped(options) ==>
                var verdict := validator(value, proto[schemaId]);
                verdict.Invalid? ==> run.result == Failure(InvalidValue(verdict.message)) && !CallsEncoder(run.calls)
      // Success exactly when the schema is known and the value was accepted or validation skipped.
      ensures run.result.Success? <==>
                schemaId in proto && (ValidationSkipped(options) || validator(value, proto[schemaId]).Valid?)
      // On success the result is the encoder's output unchanged, and the encoder call is the last one.
      ensures run.result.Success? ==>
                schemaId in proto && run.result.value == encoder(value, proto[schemaId]) &&
                |run.calls| > 0 && run.calls[|run.calls| - 1] == EncodeCall(value, proto[schemaId], run.result.value)
      // A failed encode never reached the encoder and reports only an encode-side error kind.
      ensures run.result.Failure? ==>
                !CallsEncoder(run.calls) && (run.result.error.SchemaNotFound? || run.result.error.InvalidValue?)
    {
      if schemaId !in proto then
        Run(Failure(SchemaNotFound(schemaId)), [])
      else
        var schema := proto[schemaId];
        if !ValidationSkipped(options) then
          var (verdict, log) := Validate(value, schema, []);
          if verdict.Invalid? then
            assert log[0].ValidateCall?;
            Run(Failure(InvalidValue(verdict.message)), log)
          else
            var (output, log') := EncodeBy(value, schema, log);
            assert log'[0].ValidateCall?;
            Run(Success(output), log')
        else
          var (output, log) := EncodeBy(value, schema, []);
          Run(Success(output), log)
    }

    /** Decodes `buf` with the schema registered under `schemaId`. */
    function Decode(buf: B, schemaId: SchemaId, options: Option<CallOptions>): (run: Run<V, V, B, S>)
      // An unknown id fails fast, before any collaborator is called.
      ensures schemaId !in proto ==> run == Run(Failure(SchemaNotFound(schemaId)), [])
      // Each logged answer is the collaborator's; at most two calls are made.
      ensures AnswersFaithful(run.calls) && |run.calls| <= 2
      // Otherwise the first call is the decoder, on the buffer and the schema the lookup found.
      ensures schemaId in proto ==>
                |run.calls| > 0 && run.calls[0] == DecodeCall(buf, proto[schemaId], decoder(buf, proto[schemaId]))
      // Every call uses that same schema; the encoder is never used.
      ensures forall c :: c in run.calls ==> schemaId in proto && !c.EncodeCall? && c.schema == proto[schemaId]
      // The validator only runs after the decoder, and on exactly the value the decoder produced.
      ensures forall i :: 0 <= i < |run.calls| && run.calls[i].ValidateCall? ==>
                exists j :: 0 <= j < i && run.calls[j].DecodeCall? && run.calls[j].outcome == Decoded(run.calls[i].value)
      // The validator runs exactly when the schema is known, decoding succeeded and validation is not skipped.
      ensures CallsValidator(run.calls) <==>
                schemaId in proto && decoder(buf, proto[schemaId]).Decoded? && !ValidationSkipped(options)
      // A decoder failure is passed through unchanged.
      ensures schemaId in proto && decoder(buf, proto[schemaId]).DecodeThrew? ==>
                run.result == Failure(DecoderFailed(decoder(buf, proto[schemaId]).reason))
      // A decoded value the validator rejects fails with the validator's message, unless skipped.
      ensures schemaId in proto && decoder(buf, proto[schemaId]).Decoded? && !ValidationSkipped(options) ==>
                var verdict := validator(decoder(buf, proto[schemaId]).value, proto[schemaId]);
                verdict.Invalid? ==> run.result == Failure(InvalidDecodedValue(verdict.message))
      // Success exactly when decoding succeeded and the value was accepted or validation skipped.
      ensures run.result.Success? <==>
                schemaId in proto && decoder(buf, proto[schemaId]).Decoded? &&
                (ValidationSkipped(options) || validator(decoder(buf, proto[schemaId]).value, proto[schemaId]).Valid?)
      // On success the result is the decoded value itself.
      ensures run.result.Success? ==> schemaId in proto && decoder(buf, proto[schemaId]) == Decoded(run.result.value)
      // Decode never reports the encode-side validation error.
      ensures run.result.Failure? ==> !run.result.error.InvalidValue?
    {
      if schemaId !in proto then
        Run(Failure(SchemaNotFound(schemaId)), [])
      else
        var schema := proto[schemaId];
        var (outcome, log) := DecodeBy(buf, schema, []);
        match outcome
        case DecodeThrew(reason) =>
          Run(Failure(DecoderFailed(reason)), log)
        case Decoded(value) =>
          if !ValidationSkipped(options) then
            var (verdict, log') := Validate(value, schema, log);
            if verdict.Invalid? then
              assert log'[1].ValidateCall?;
              Run(Failure(InvalidDecodedValue(verdict.message)), log')
            else
              Run(Success(value), log')
          else
            Run(Success(value), log)
    }

    /**
      Any options other than an explicit `skipValidate: true` (a missing
      options object, skipValidate unset, or skipValidate false) make encode
      and decode behave, result and calls alike, as when no options are given.
     */
    lemma OnlySkipFlagBypassesValidation(value: V, buf: B, schemaId: SchemaId, options: Option<CallOptions>)
      requires options != Some(CallOptions(Some(true)))
      ensures Encode(value, schemaId, options) == Encode(value, schemaId, None)
      ensures Decode(buf, schemaId, options) == Decode(buf, schemaId, None)
    {
    }

    /**
      A validating encode is the validator's verdict followed, on acceptance,
      by exactly what a skipping encode does.
     */
    lemma EncodeIsValidateThenSkippingEncode(value: V, schemaId: SchemaId, options: Option<CallOptions>)
      requires !ValidationSkipped(options)
      ensures var run, skipped := Encode(value, schemaId, options), Encode(value, schemaId, Some(CallOptions(Some(true))));
              if schemaId !in proto then run == skipped
              else
                var verdict := validator(value, proto[schemaId]);
                run.calls == [ValidateCall(value, proto[schemaId], verdict)] + (if verdict.Valid? then skipped.calls else []) &&
                run.result == if verdict.Valid? then skipped.result else Failure(InvalidValue(verdict.message))
    {
    }

    /**
      A validating decode is a skipping decode whose value, if any, is then
      put to the validator with the same schema.
     */
    lemma DecodeIsSkippingDecodeThenValidate(buf: B, schemaId: SchemaId, options: Option<CallOptions>)
      requires !ValidationSkipped(options)
      ensures var run, skipped := Decode(buf, schemaId, options), Decode(buf, schemaId, Some(CallOptions(Some(true))));
              match skipped.result
              case Failure(e) => run == skipped
              case Success(v) =>
                var verdict := validator(v, proto[schemaId]);
                run.calls == skipped.calls + [ValidateCall(v, proto[schemaId], verdict)] &&
                run.result == if verdict.Valid? then Success(v) else Failure(InvalidDecodedValue(verdict.message))
    {
    }

    /** The codecs invert each other on every value the validator accepts. */
    ghost predicate CodecsRoundTrip()
    {
      forall v, s :: validator(v, s).Valid? ==> decoder(encoder(v, s), s) == Decoded(v)
    }

    /**
      If the codecs round-trip accepted values, then a value the validator
      accepts encodes, under any options, to a buffer that decodes back to
      it under any options: post-decode validation never rejects it.
     */
    lemma RoundTrip(value: V, schemaId: SchemaId, encodeOptions: Option<CallOptions>, decodeOptions: Option<CallOptions>)
      requires CodecsRoundTrip()
      requires schemaId in proto && validator(value, proto[schemaId]).Valid?
      ensures Encode(value, schemaId, encodeOptions).result.Success?
      ensures Decode(Encode(value, schemaId, encodeOptions).result.value, schemaId, decodeOptions).result == Success(value)
    {
    }

    /**
      The calls one request makes. A decode never calls the encoder, and an
      encode that does not skip validation is gated, so such a log is gated.
     */
    function CallsOf(request: Request<V, B>): (calls: seq<Call<V, B, S>>)
      ensures request.DecodeRequest? || !ValidationSkipped(request.options) ==> EncoderGated(calls)
    {
      match request
      case EncodeRequest(value, schemaId, options) => Encode(value, schemaId, options).calls
      case DecodeRequest(buf, schemaId, options) => Decode(buf, schemaId, options).calls
    }

    /**
      The calls a sequence of requests makes, in order. The facade keeps no
      state between calls, so this is the concatenation of the logs of the
      single requests.
     */
    function SessionLog(requests: seq<Request<V, B>>): (log: seq<Call<V, B, S>>)
    {
      if requests == [] then []
      else SessionLog(requests[..|requests| - 1]) + CallsOf(requests[|requests| - 1])
    }

    /**
      In any sequence of encode and decode calls in which no encode skips
      validation, the encoder never receives a value and schema that the
      validator has not accepted before.
     */
    lemma {:induction false} SessionGated(requests: seq<Request<V, B>>)
      requires forall k :: 0 <= k < |requests| && requests[k].EncodeRequest? ==> !ValidationSkipped(requests[k].options)
      ensures EncoderGated(SessionLog(requests))
    {
      if requests != [] {
        var init, last := requests[..|requests| - 1], requests[|requests| - 1];
        SessionGated(init);
        GatedAppend(SessionLog(init), CallsOf(last));
      }
    }
  }
}
