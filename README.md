# cargo-contract extrinsic events, modelled in Dafny

This project models how `cargo-contract` turns the events of one
extrinsic into `DisplayEvents`, a list of `Event { pallet, name, fields }`,
and how it renders that list for humans. All of it lives in
`crates/extrinsics/src/events.rs`.

- **Field walker.** `DisplayEvents::from_events` goes through the event
  iterator. For each raw event it walks the variant's field metadata over
  one shared byte cursor. A field keeps its declared name. An unnamed
  field is named by a counter that counts unnamed fields only and starts
  at 0 for each event. The field `data` of `Contracts`/`ContractEmitted`
  goes to `contract_event_data_field`. Every other field goes to the
  generic decoder, and that decoder's error aborts the whole call.
- **Contract payload.** `contract_event_data_field` shows the decoded
  contract event when there is a transcoder, there is a signature topic
  and decoding succeeds. Otherwise it shows the bytes left on the cursor
  as `Value::Hex`. It never fails.
- **Renderer.** `display_events` emits a header line and one line per
  event. In verbose mode it adds one line per field. A field whose type
  name is `T::Balance` or `BalanceOf<T>` and whose value is `UInt` is
  shown through the balance formatter, and that formatter's error aborts
  the rendering.

The decoders and the formatter belong to other crates, so they are
parameters:

- The generic decoder is a function from a type id and the remaining
  bytes to a value and a count of bytes consumed. That count is at most
  the number of remaining bytes.
- `decode_contract_event` has the same shape. It reports how far it moved
  the cursor even when it fails.
- `Value`'s `Display` is a function from a value to a string.
- `BalanceVariant::from(..)?.to_string()` is a function from `u128` to a
  fallible string.

The modules are:

- `Common`: option, result, and decimal `to_string` with its read-back.
- `Transcode`: the `contract_transcode` value type and the collaborator
  types.
- `Events`: the data model, the specification functions, the
  `contract_event_data_field` function and the imperative `FromEvents`
  method.
- `EventProperties`: lemmas about the walker.
- `Display`: the line model, its specification functions and the
  imperative `DisplayEventsLines` method.
- `DisplayProperties`: lemmas about the rendered output.

Each method is proved equal to a specification function (`DecodeEvents`,
`Render`), and the lemmas are stated about those functions.

Three behaviours of the code the model keeps:

- **No trailing-bytes check.** The code does not check that the cursor is
  exhausted after the last field, and it has no trailing-bytes error
  (lines 204-242). The fields are decoded whatever bytes remain.
- **No transcoder means hex.** When no transcoder is given, the payload
  is also shown as hex (line 326), not only when there is no topic.
- **Hex of what is left.** In the no-transcoder and no-topic branches the
  hex fallback does not advance the cursor. After a failed
  `decode_contract_event`, the hex is of the cursor as that call left it
  (line 318).

## Model

| member | source | states |
|---|---|---|
| Events.FirstTopic | crates/extrinsics/src/events.rs:202 | the signature topic is present exactly when the event has topics, and then it is the first one |
| Events.ContractEventDataField | crates/extrinsics/src/events.rs:303-333 | the field is always named `data` with the metadata's type name; the value is the decoded contract event exactly when a transcoder and a topic exist and decoding succeeds, otherwise `Hex` of the bytes left on the cursor; the cursor does not move without a transcoder or a topic, and otherwise moves as far as the decoder moved it; the result is never an error |
| Events.FieldName | crates/extrinsics/src/events.rs:219-227 | a declared name is kept; an unnamed field is named by the canonical decimal string of the counter: non-empty, digits only, no leading zero, reading back as the counter |
| Events.DecodeField | crates/extrinsics/src/events.rs:204-241 | one field step: the step fails exactly when the field is not the contract payload and the generic decoder fails, and then with that decoder's error; any other field carries the decoder's value and consumed count, the declared or positional name, and the metadata's type name; the counter advances exactly on unnamed fields; the cursor stays within the bytes (the payload case is stated by `PayloadFieldAt`) |
| Events.DecodeFields | crates/extrinsics/src/events.rs:204-241 | a successful walk yields exactly one field per metadata entry |
| Events.DecodeEvent | crates/extrinsics/src/events.rs:195-242 | an event decodes exactly when its field walk (counter 0, cursor at the field bytes) does; pallet and name are copied from the raw event; one field per metadata entry |
| Events.ItemOutcome | crates/extrinsics/src/events.rs:185 | an iterator item that is an error yields that error unchanged; a decoded item was `Ok` and keeps its pallet, its event name and one field per metadata entry |
| Events.DecodeEvents | crates/extrinsics/src/events.rs:184-245 | a successful batch has one event per iterator item |
| Events.FromEvents | crates/extrinsics/src/events.rs:173-246 | the nested-loop walker returns `Ok` exactly when `DecodeEvents` does, with the same events, and otherwise with the same error |
| EventProperties.Offset | crates/extrinsics/src/events.rs:201-233 | the cursor position before field `j`, found by replaying the first `j` steps over the one shared cursor, never passes the end of the bytes |
| EventProperties.FieldNameAt | crates/extrinsics/src/events.rs:203-227 | within a walk, field `j` is named by its declared name or else by the counter's start plus the number of unnamed entries before `j`, and carries `j`'s type name |
| EventProperties.FieldStepAt | crates/extrinsics/src/events.rs:201-241 | field `j` of a walk is what the single-field step produces at `Offset(.., j)`, the cursor as the first `j` steps left it, with the counter at its start plus the number of unnamed entries before `j` |
| EventProperties.FailureAt | crates/extrinsics/src/events.rs:229-233 | a failed walk failed at an entry `j` that is not the contract payload, after the first `j` entries decoded, and the generic decoder, given the bytes from `Offset(.., j)`, returned exactly the walk's error |
| EventProperties.FailsAt | crates/extrinsics/src/events.rs:229-233 | conversely, when the first `j` entries decode and the generic decoder fails on non-payload entry `j` at `Offset(.., j)`, the walk fails with that error |
| EventProperties.EventFailure | crates/extrinsics/src/events.rs:229-245 | an event fails only where its first `j` fields decoded and the generic decoder failed on non-payload field `j` at the cursor they left, and that decoder's error is the event's error |
| EventProperties.EventFailsAt | crates/extrinsics/src/events.rs:229-245 | conversely, such a failure at field `j` makes the event fail with the decoder's error |
| EventProperties.FieldNaming | crates/extrinsics/src/events.rs:203-238 | a decoded event has one field per metadata entry; declared names are kept; unnamed fields are named `NatToString` of the count of unnamed entries before them (so "0", "1", ... restarting per event); each field has its entry's type name |
| EventProperties.EventFieldNameAt | crates/extrinsics/src/events.rs:203-238 | the same naming and type-name facts for one field index |
| EventProperties.PositionalNamesDistinct | crates/extrinsics/src/events.rs:224-225 | two unnamed fields of one event never get the same name |
| EventProperties.PayloadFieldAt | crates/extrinsics/src/events.rs:205-217 | field `j` of a decoded event, when it is the `data` field of `Contracts`/`ContractEmitted`, is `ContractEventDataField`'s field for the bytes from the cursor the earlier fields left |
| EventProperties.GenericFieldAt | crates/extrinsics/src/events.rs:218-239 | every other field `j` of a decoded event is the generic decoder's successful value for the bytes from the cursor the earlier fields left, with its declared or positional name and its type name |
| EventProperties.FieldDispatch | crates/extrinsics/src/events.rs:205-240 | field `j` of a decoded event is one of the two above, selected by `IsContractDataField`: pallet `Contracts`, event `ContractEmitted` and field name `Some("data")` (lines 205-208) select `ContractEventDataField`, every other field the generic decoder |
| EventProperties.DecodeEventsInOrder | crates/extrinsics/src/events.rs:184-242 | a successful batch has one event per iterator item, in order; each item is `Ok` and decodes to that event; pallet and name come from the raw event |
| EventProperties.DecodeEventsAllOrNothing | crates/extrinsics/src/events.rs:184-245 | the batch succeeds exactly when every item decodes; otherwise the error is that of the first item that does not, so no partial result exists |
| Common.ParseNatToString | crates/extrinsics/src/events.rs:224 | the decimal rendering of the counter reads back to the counter |
| Common.NatToStringInjective | crates/extrinsics/src/events.rs:224 | distinct counter values give distinct names |
| Common.NatToString | crates/extrinsics/src/events.rs:224 | `to_string` of an unsigned counter: at least one digit, digits only, no leading zero |
| Display.FieldValueText | crates/extrinsics/src/events.rs:272-280 | a value text fails exactly for a balance-typed `UInt` that the formatter rejects, with the formatter's error; when it succeeds it is the formatted balance for a balance-typed `UInt` and the generic rendering otherwise |
| Display.FieldLines | crates/extrinsics/src/events.rs:270-289 | successful field lines number exactly the fields |
| Display.EventBlock | crates/extrinsics/src/events.rs:260-290 | a successful event block is one event line plus, when verbose, one line per field |
| Display.EventLines | crates/extrinsics/src/events.rs:260-290 | successful event lines number the events plus, when verbose, all their fields |
| Display.Render | crates/extrinsics/src/events.rs:249-293 | a successful rendering has `1 + #events` lines, plus the total number of fields when verbose |
| Display.DisplayEventsLines | crates/extrinsics/src/events.rs:249-293 | the nested-loop renderer returns exactly `Render`: the same lines, or the same error |
| DisplayProperties.FieldLineAt | crates/extrinsics/src/events.rs:270-289 | field line `k` shows field `k`'s name and value text |
| DisplayProperties.EventLineAt | crates/extrinsics/src/events.rs:260-268 | event `i`'s event line comes after the blocks of all earlier events |
| DisplayProperties.EventStartNext | crates/extrinsics/src/events.rs:260-290 | consecutive event lines are one line plus, when verbose, the earlier event's field count apart |
| DisplayProperties.FieldsBeforeAll | crates/extrinsics/src/events.rs:270-289 | the field lines of all the events together number `TotalFields`, the count the rendering's length uses |
| DisplayProperties.EventFieldLineAt | crates/extrinsics/src/events.rs:270-289 | in verbose mode, field `k` of event `i` is shown `1 + k` lines after its event line |
| DisplayProperties.QuietEventLines | crates/extrinsics/src/events.rs:260-271 | without verbosity the event lines always succeed and are one event line per event, in order |
| DisplayProperties.RenderQuiet | crates/extrinsics/src/events.rs:249-293 | without verbosity the output always succeeds and is the header followed by one event line per event, in order, with pallet and name |
| DisplayProperties.RenderEventLine | crates/extrinsics/src/events.rs:255-290 | the output starts with the header; the line of event `i` sits after it and after every earlier event with, when verbose, its field lines; the next event's line follows after one line plus, when verbose, this event's field lines; the last block ends exactly at the end of the output |
| DisplayProperties.RenderFieldLine | crates/extrinsics/src/events.rs:270-289 | in verbose mode, field `k` of event `i` is a field line `1 + k` lines after its event line, with the field's name; its value is the formatted balance exactly for a `T::Balance`/`BalanceOf<T>` field holding `UInt`, and the value's generic rendering otherwise |
| DisplayProperties.FieldLinesFailure | crates/extrinsics/src/events.rs:277 | failed field lines failed at a field whose value text failed with that error, all earlier ones succeeding |
| DisplayProperties.FieldLinesFailsAt | crates/extrinsics/src/events.rs:277 | a field whose value text fails makes the field lines fail |
| DisplayProperties.EventLinesFailure | crates/extrinsics/src/events.rs:270-277 | failed event lines mean verbose mode and a first failing field, all earlier events' fields succeeding |
| DisplayProperties.EventLinesFailsAt | crates/extrinsics/src/events.rs:270-277 | in verbose mode, one failing field value makes the event lines fail |
| DisplayProperties.RenderFailure | crates/extrinsics/src/events.rs:271-292 | rendering fails exactly when verbose and some balance-typed `UInt` field is rejected by the formatter; then the error is the formatter's error for the first such field in output order |
| DisplayProperties.DecodedFieldCount | crates/extrinsics/src/events.rs:204-242 | the decoded events hold exactly as many fields as the raw events have metadata entries |
| DisplayProperties.DecodedLineCount | crates/extrinsics/src/events.rs:184-291 | rendering what `from_events` decoded gives `1 + #raw events` lines, plus one per field metadata entry when verbose |

## Left out

- The SCALE value decoder. `events_transcoder.decode` and
  `decode_contract_event` belong to `contract_transcode`, which is not part
  of this model. They are parameters, assumed only to consume at most the
  remaining bytes.
- `subxt` plumbing: the `ExtrinsicEvents` iterator, `event_metadata`,
  `field_bytes`, `topics` and the `TranscoderBuilder` set-up (lines
  180-202). The model takes their outputs as plain sequences: `Ok` or
  `Err` items carrying names, field metadata, field bytes and topics.
- The derive-annotated event structs (lines 51-132). Only their
  pallet/event constants are kept, as `Events.CONTRACT_EMITTED`,
  `CONTRACT_INSTANTIATED`, `CODE_STORED` and `CODE_REMOVED`. `is_event`
  is `StaticEvent.IsEvent`, which compares both names.
- Terminal colouring, column widths and the `format!`/`writeln!` string
  assembly (lines 254-288). Output is a sequence of abstract lines, so the
  model does not state the exact text of a line.
- `BalanceVariant::from` with token-metadata formatting (line 277), and
  `Value`'s `Display`. Both are foreign code, modelled as opaque function
  parameters.
- `to_json` and serde serialization, including `skip_serializing` on
  `type_name` (lines 142, 296-298). This is library serialization.
- `tracing` logging, which is a side channel.
- `Hex::from_str(&hex::encode(..))`, modelled as the `Hex(bytes)` value.
  The model treats it as unable to fail, so `ContractEventDataField`
  returns a field and not a `Result`.
- `Verbosity`, modelled as a boolean (`is_verbose()`).
