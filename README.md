# TSBuffer facade model

This project models `TSBuffer`, the front class of the tsbuffer binary serialization library. It holds a schema registry (the proto map from schema ids such as `a/b/Test` to schema nodes) and three collaborators built from it: a validator, an encoder and a decoder. `encode` looks up the schema, validates the value unless `skipValidate` is set, and hands the value to the encoder. `decode` looks up the schema, hands the buffer to the decoder, and validates the decoded value unless `skipValidate` is set.

Files and modules:

- `collaborators.dfy`, module `Collaborators`. It holds the validator's verdict, the decoder's outcome (a value, or the exception it threw), the facade's error kinds, the `{ skipValidate?: boolean }` options, and the call-log events. It also defines `EncoderGated`, a property of a whole log: every encoder call comes after a validator call that accepted the same value and schema.
- `tsbuffer.dfy`, module `TSBufferFacade`. It holds the class `TSBuffer<V, B, S>`. Values (`V`), buffers (`B`) and schema nodes (`S`) are opaque type parameters. The four fields are `const`: the constructor sets them once and nothing changes them afterwards. `Encode` and `Decode` are functions that return a `Run`: the result (`Success` or `Failure` with an error kind), plus the ordered list of collaborator calls made, each with its arguments and answer. Every collaborator call goes through a logging helper, one per collaborator, so the log and the result are built from the same answers. The log is part of the returned value only so that contracts can talk about call order. The source keeps no such log.

The validator, encoder and decoder are total function values. Their algorithms are not part of this model. The constructor takes three factories that stand in for `new TSBufferValidator(proto)`, `new Encoder(validator)` and `new Decoder(validator)`.

The source has no separate malformed-buffer error kind. Whatever `this._decoder.decode` throws (src/TSBuffer.ts:58) propagates, and the model carries it as `DecoderFailed(reason)`, the decoder's own failure passed through unchanged.

The session layer (`CallsOf`, `SessionLog`, `SessionGated`, and `GatedAppend` on logs) is an application-level consequence, not behaviour of the source, which keeps no state or log between calls. It follows from the per-call contracts: `Encode` gates the encoder unless validation is skipped, and `Decode` never calls the encoder.

## Model

| member | source | states |
|---|---|---|
| `TSBufferFacade.TSBuffer.constructor` | src/TSBuffer.ts:13-18 | The registry is the one passed in. The validator is built from that registry. The encoder and decoder are built from that same validator. All four fields are constants, so encode and decode cannot change them. |
| `TSBufferFacade.TSBuffer.Encode` | src/TSBuffer.ts:26-42 | An unknown id fails with `SchemaNotFound(id)` and calls nothing. At most two calls are made, and each logged answer is the collaborator's own. With skipping, the only call is one encoder call. Every call made gets the value itself and the schema found by the lookup. The validator is called exactly when the id is known and validation is not skipped. Unless skipped, the encoder only runs after the validator accepted that same value and schema. A rejected value fails with `InvalidValue(message)` and the encoder is never called. Encode succeeds exactly when the id is known and the value was accepted or validation was skipped. On success the result is exactly the encoder's output, from the last call in the log. Failures are only `SchemaNotFound` or `InvalidValue`. |
| `TSBufferFacade.TSBuffer.Decode` | src/TSBuffer.ts:50-68 | An unknown id fails with `SchemaNotFound(id)` and calls nothing. At most two calls are made, and each logged answer is the collaborator's own. Otherwise the first call is the decoder, on the buffer and the looked-up schema. Every call uses that schema; the encoder is never called. Every validator call comes after a decoder call that produced exactly the value being validated. The validator runs exactly when decoding succeeded and validation is not skipped. A decoder failure passes through as `DecoderFailed`. A rejected decoded value fails with `InvalidDecodedValue(message)`. Decode succeeds exactly when decoding succeeded and the value was accepted or validation was skipped. With skipping, that includes an invalid value. On success the result is the decoded value itself. |
| `TSBufferFacade.TSBuffer.OnlySkipFlagBypassesValidation` | src/TSBuffer.ts:34-60 | Under any options other than an explicit `skipValidate: true` (missing options, `skipValidate` unset, or `skipValidate: false`), encode and decode each give the same result and make the same calls as with no options at all, so validation happens. |
| `TSBufferFacade.TSBuffer.EncodeIsValidateThenSkippingEncode` | src/TSBuffer.ts:29-41 | A validating encode calls the validator once. If the value is accepted, it then does exactly what a skipping encode does: same further calls, same result. If the value is rejected, it reports the validator's message and stops. |
| `TSBufferFacade.TSBuffer.DecodeIsSkippingDecodeThenValidate` | src/TSBuffer.ts:53-67 | A validating decode is a skipping decode followed, when that decode produced a value, by one validator call on that value with the same schema. The result is the value if accepted, `InvalidDecodedValue` otherwise. A failure of the skipping decode is returned unchanged, with the same calls. |
| `TSBufferFacade.TSBuffer.RoundTrip` | src/TSBuffer.ts:26-68 | Assume the codecs invert each other on every accepted value (a hypothesis about code outside this model). Then a value the validator accepts encodes successfully under any options, and decoding that buffer under any options gives the value back. So post-decode validation never rejects it. |
| `Collaborators.GatedAppend` | src/TSBuffer.ts:34-41 | A fact about logs, used to lift the per-call gating to sessions. Appending two logs that are each gated (every encoder call preceded by an acceptance of the same value and schema) gives a gated log. |
| `TSBufferFacade.TSBuffer.CallsOf` | src/TSBuffer.ts:26-68 | The log of a single request is gated when the request is a decode (decode never calls the encoder) or an encode that does not skip validation. |
| `TSBufferFacade.TSBuffer.SessionGated` | src/TSBuffer.ts:26-68 | A consequence of the per-call contracts, not separate behaviour of the source. Take any sequence of encode and decode calls in which no encode skips validation (decodes may skip). In the combined log, the encoder never receives a value and schema that the validator has not accepted earlier. |

## Left out

- The binary layout, the encoding and decoding algorithms, and the structural checks of the validator. They live in `./encoder/Encoder`, `./decoder/Decoder` and the external package `tsbuffer-validator`, which are not part of this model. They appear only as function-valued parameters.
- Exceptions thrown by the validator or the encoder. Both are modelled as total functions. Only the decoder's failure is modelled: `decode` is given a buffer from outside, and whatever `this._decoder.decode` throws propagates (src/TSBuffer.ts:58).
- The JavaScript lookup `this._proto[schemaId]`. The source tests it for truthiness and it also finds properties inherited through the prototype chain. The model uses exact key membership in a `map`.
- Error message text, including how the colon in the schema-not-found message differs between encode and decode. The model keeps error kinds and their wrapped message or reason, not strings.
- RoundTrip: proved only under an explicit hypothesis about the codecs (`CodecsRoundTrip`). It cannot be proved about the facade alone, because it depends entirely on the encoder and decoder.
- SessionGated: stated only for sequences in which no encode skips validation. A skipping encode is allowed to encode an unvalidated value.
- Concurrency. The facade keeps no mutable state. Concurrent use is safe only if the collaborators are safe, and that is their contract, not the facade's.
- Aliasing and mutability of the fields. The source keeps the caller's `proto` object by reference (src/TSBuffer.ts:14) and builds the validator on that same reference (src/TSBuffer.ts:15). A caller who mutates it after construction changes what `encode` and `decode` see; the value `map` drops that aliasing. The four fields are also `protected` and mutable in the source (src/TSBuffer.ts:8-11), while the model makes them `const`.
- Dynamic typing of `value` (`any`) and the concrete `ArrayBuffer` type. Both are opaque type parameters.
