/** The collaborators that events.rs calls into but does not define: the
    value type of `contract_transcode`, its generic SCALE decoder and the
    contract-event decoder of a `ContractMessageTranscoder`. The decoders
    are abstract function values; all the model assumes of them is what
    their `&mut &[u8]` cursor guarantees: they consume at most the bytes
    that remain. */
module Transcode {
  import opened Common

  newtype Byte = b: int | 0 <= b < 0x100

  newtype u128 = n: int | 0 <= n < 0x1_0000_0000_0000_0000_0000_0000_0000_0000

  newtype i128 = n: int | -0x8000_0000_0000_0000_0000_0000_0000_0000 <= n < 0x8000_0000_0000_0000_0000_0000_0000_0000

  /** An event topic (an `H256` hash); the first topic of a contract event
      is its signature. The model keeps the bytes without fixing their
      length, which nothing here depends on. */
  datatype H256 = H256(bytes: seq<Byte>)

  /** Identifier of a type in the chain's portable type registry. */
  type TypeId = nat

  /** The dynamic value tree produced by `contract_transcode`. */
  datatype Value =
    | Bool(b: bool)
    | Char(c: char)
    | UInt(n: u128)
    | Int(i: i128)
    | Map(mapIdent: Option<string>, entries: seq<MapEntry>)
    | Tuple(tupleIdent: Option<string>, elems: seq<Value>)
    | String(s: string)
    | Seq(items: seq<Value>)
    | Hex(bytes: seq<Byte>)
    | Literal(text: string)
    | Unit

  datatype MapEntry = MapEntry(key: Value, val: Value)

  /** A successful decode: the value and how many bytes of the cursor it used. */
  datatype Decoded = Decoded(value: Value, consumed: nat)

  /** `events_transcoder.decode(types, type_id, cursor)`, over the chain's
      registry fixed for one call. */
  type GenericDecoder = (TypeId, seq<Byte>) -> Result<Decoded>

  /** What `decode_contract_event(topic, cursor)` does. It receives the
      cursor by mutable reference, so nothing stops it from moving the
      cursor before it fails; both outcomes therefore say how far it got. */
  datatype EventOutcome =
    | EventDecoded(value: Value, consumed: nat)
    | EventFailed(error: Error, consumed: nat)

  /** A `ContractMessageTranscoder`, seen only through its contract-event
      decoder. */
  type ContractTranscoder = (H256, seq<Byte>) -> EventOutcome

  ghost predicate GenericWithin(decode: GenericDecoder) {
    forall ty, data :: decode(ty, data).Ok? ==> decode(ty, data).value.consumed <= |data|
  }

  ghost predicate TranscoderWithin(transcoder: ContractTranscoder) {
    forall topic, data :: transcoder(topic, data).consumed <= |data|
  }

  /** The decoding collaborators of one `from_events` call. */
  datatype Decoders = Decoders(generic: GenericDecoder, transcoder: Option<ContractTranscoder>) {
    ghost predicate Valid() {
      GenericWithin(generic) && (transcoder.Some? ==> TranscoderWithin(transcoder.value))
    }
  }
}
