/** crates/extrinsics/src/events.rs: turning the events of one extrinsic
    into `DisplayEvents`, a list of `Event { pallet, name, fields }`. */
module Events {
  import opened Common
  import opened Transcode

  /** The pallet/event identity of a statically known event (`StaticEvent`). */
  datatype StaticEvent = StaticEvent(pallet: string, event: string) {
    /** `StaticEvent::is_event`: both the pallet and the event name match. */
    predicate IsEvent(palletName: string, eventName: string) {
      pallet == palletName && event == eventName
    }
  }

  const CONTRACT_EMITTED := StaticEvent("Contracts", "ContractEmitted")
  const CONTRACT_INSTANTIATED := StaticEvent("Contracts", "Instantiated")
  const CODE_STORED := StaticEvent("Contracts", "CodeStored")
  const CODE_REMOVED := StaticEvent("Contracts", "CodeRemoved")

  /** A decoded field; `Field::new` is this constructor. `typeName` is kept
      for the renderer only. */
  datatype Field = Field(name: string, value: Value, typeName: Option<string>)

  datatype Event = Event(pallet: string, name: string, fields: seq<Field>)

  datatype DisplayEvents = DisplayEvents(events: seq<Event>)

  /** One entry of an event variant's field metadata. */
  datatype FieldMetadata = FieldMetadata(name: Option<string>, ty: TypeId, typeName: Option<string>)

  /** What the model needs of one raw event: its names, its field
      metadata, its undecoded field bytes and its topics. */
  datatype EventDetails = EventDetails(
    palletName: string,
    variantName: string,
    fields: seq<FieldMetadata>,
    fieldBytes: seq<Byte>,
    topics: seq<H256>)

  /** The signature topic: the first topic, if any. */
  function FirstTopic(ev: EventDetails): (t: Option<H256>)
    ensures t.Some? <==> |ev.topics| > 0
    ensures t.Some? ==> t.value == ev.topics[0]
  {
    if |ev.topics| > 0 then Some(ev.topics[0]) else None
  }

  /** The field that holds a contract's own event payload: the field named
      "data" of `Contracts`/`ContractEmitted`. */
  predicate IsContractDataField(ev: EventDetails, meta: FieldMetadata)
  {
    CONTRACT_EMITTED.IsEvent(ev.palletName, ev.variantName) && meta.name == Some("data")
  }

  /** The contract-event decoder is tried exactly when there is a
      transcoder and a signature topic. */
  predicate TriesContractDecode(transcoder: Option<ContractTranscoder>, sigTopic: Option<H256>) {
    transcoder.Some? && sigTopic.Some?
  }

  /** The three conditions under which the payload is shown decoded. */
  predicate DecodesContractEvent(transcoder: Option<ContractTranscoder>, sigTopic: Option<H256>, data: seq<Byte>) {
    TriesContractDecode(transcoder, sigTopic) && transcoder.value(sigTopic.value, data).EventDecoded?
  }

  /** A field together with how many bytes the cursor advanced to
      produce it. */
  datatype DataField = DataField(field: Field, consumed: nat)

  /** `contract_event_data_field`: decode a contract's event payload if a
      transcoder and a signature topic are available and decoding works,
      otherwise show the bytes left on the cursor as hex. It never fails.
      Without a transcoder or a topic the cursor does not move; after a
      failed decode it stays where the decoder left it. */
  function ContractEventDataField(
    transcoder: Option<ContractTranscoder>,
    meta: FieldMetadata,
    sigTopic: Option<H256>,
    data: seq<Byte>): (r: DataField)
    requires transcoder.Some? ==> TranscoderWithin(transcoder.value)
    ensures r.field.name == "data" && r.field.typeName == meta.typeName
    ensures r.consumed <= |data|
    ensures !TriesContractDecode(transcoder, sigTopic) ==> r.consumed == 0
    ensures TriesContractDecode(transcoder, sigTopic) ==>
      r.consumed == transcoder.value(sigTopic.value, data).consumed
    ensures DecodesContractEvent(transcoder, sigTopic, data) ==>
      r.field.value == transcoder.value(sigTopic.value, data).value
    ensures !DecodesContractEvent(transcoder, sigTopic, data) ==> r.field.value == Hex(data[r.consumed..])
  {
    var (value, consumed) :=
      if transcoder.Some? then
        if sigTopic.Some? then
          var outcome := transcoder.value(sigTopic.value, data);
          match outcome
          case EventDecoded(v, n) => (v, n)
          case EventFailed(_, n) => (Hex(data[n..]), n)
        else
          (Hex(data), 0)
      else
        (Hex(data), 0);
    DataField(Field("data", value, meta.typeName), consumed)
  }

  /** The name of a field: its declared name, or else the current value of
      the unnamed-field counter in decimal. */
  function FieldName(meta: FieldMetadata, unnamed: nat): (name: string)
    ensures meta.name.Some? ==> name == meta.name.value
    ensures meta.name.None? ==>
      && 1 <= |name| && (forall i :: 0 <= i < |name| ==> IsDigit(name[i]))
      && (|name| > 1 ==> name[0] != '0')
      && ParseNat(name) == unnamed
  {
    if meta.name.Some? then meta.name.value
    else
      ParseNatToString(unnamed);
      NatToString(unnamed)
  }

  /** The walker's state after one field: the field, how far the cursor
      advanced and the unnamed-field counter. */
  datatype Step = Step(field: Field, consumed: nat, unnamed: nat)

  /** One iteration of the inner loop of `from_events`: the contract
      payload field goes to `ContractEventDataField`, every other field to
      the generic decoder, whose error aborts. */
  function DecodeField(d: Decoders, ev: EventDetails, meta: FieldMetadata, data: seq<Byte>, unnamed: nat): (r: Result<Step>)
    requires d.Valid()
    ensures r.Ok? ==> r.value.consumed <= |data|
    ensures r.Ok? ==> r.value.field.name == FieldName(meta, unnamed) && r.value.field.typeName == meta.typeName
    ensures r.Ok? ==> r.value.unnamed == if meta.name.None? then unnamed + 1 else unnamed
    ensures r.Err? <==> !IsContractDataField(ev, meta) && d.generic(meta.ty, data).Err?
    ensures r.Err? ==> r.error == d.generic(meta.ty, data).error
    ensures !IsContractDataField(ev, meta) && r.Ok? ==>
      r.value.field.value == d.generic(meta.ty, data).value.value &&
      r.value.consumed == d.generic(meta.ty, data).value.consumed
  {
    if IsContractDataField(ev, meta) then
      var df := ContractEventDataField(d.transcoder, meta, FirstTopic(ev), data);
      Ok(Step(df.field, df.consumed, unnamed))
    else
      var unnamed' := if meta.name.Some? then unnamed else unnamed + 1;
      match d.generic(meta.ty, data)
      case Err(e) => Err(e)
      case Ok(decoded) =>
        Ok(Step(Field(FieldName(meta, unnamed), decoded.value, meta.typeName), decoded.consumed, unnamed'))
  }

  /** The fields decoded from `metas` in order over one shared cursor. */
  function DecodeFields(d: Decoders, ev: EventDetails, metas: seq<FieldMetadata>, data: seq<Byte>, unnamed: nat): (r: Result<seq<Field>>)
    requires d.Valid()
    ensures r.Ok? ==> |r.value| == |metas|
    decreases |metas|
  {
    if metas == [] then Ok([])
    else
      match DecodeField(d, ev, metas[0], data, unnamed)
      case Err(e) => Err(e)
      case Ok(step) => Prepend([step.field], DecodeFields(d, ev, metas[1..], data[step.consumed..], step.unnamed))
  }

  /** One raw event decoded: the counter starts at 0 and the cursor at the
      event's field bytes. */
  function DecodeEvent(d: Decoders, ev: EventDetails): (r: Result<Event>)
    requires d.Valid()
    ensures r.Ok? <==> DecodeFields(d, ev, ev.fields, ev.fieldBytes, 0).Ok?
    ensures r.Ok? ==> r.value.pallet == ev.palletName && r.value.name == ev.variantName
    ensures r.Ok? ==> |r.value.fields| == |ev.fields|
  {
    match DecodeFields(d, ev, ev.fields, ev.fieldBytes, 0)
    case Err(e) => Err(e)
    case Ok(fields) => Ok(Event(ev.palletName, ev.variantName, fields))
  }

  /** One item of the event iterator: its own error, or its decoding. */
  function ItemOutcome(d: Decoders, item: Result<EventDetails>): (r: Result<Event>)
    requires d.Valid()
    ensures item.Err? ==> r == Err(item.error)
    ensures r.Ok? ==>
      && item.Ok?
      && r.value.pallet == item.value.palletName && r.value.name == item.value.variantName
      && |r.value.fields| == |item.value.fields|
  {
    match item
    case Err(e) => Err(e)
    case Ok(ev) => DecodeEvent(d, ev)
  }

  /** The events of a batch decoded in order; the first error ends it. */
  function DecodeEvents(d: Decoders, items: seq<Result<EventDetails>>): (r: Result<seq<Event>>)
    requires d.Valid()
    ensures r.Ok? ==> |r.value| == |items|
    decreases |items|
  {
    if items == [] then Ok([])
    else
      match ItemOutcome(d, items[0])
      case Err(e) => Err(e)
      case Ok(event) => Prepend([event], DecodeEvents(d, items[1..]))
  }

  /** `DisplayEvents::from_events`: for each event of the iterator, walk
      its field metadata over one cursor, naming and decoding each field. */
  method FromEvents(result: seq<Result<EventDetails>>, d: Decoders) returns (r: Result<DisplayEvents>)
    requires d.Valid()
    ensures r.Ok? <==> DecodeEvents(d, result).Ok?
    ensures r.Ok? ==> r.value.events == DecodeEvents(d, result).value
    ensures r.Err? ==> r.error == DecodeEvents(d, result).error
  {
    var events: seq<Event> := [];
    var i := 0;
    assert result[i..] == result;
    PrependNothing(DecodeEvents(d, result));
    while i < |result|
      invariant 0 <= i <= |result|
      invariant DecodeEvents(d, result) == Prepend(events, DecodeEvents(d, result[i..]))
    {
      assert result[i..][0] == result[i] && result[i..][1..] == result[i + 1..];
      if result[i].Err? {
        return Err(result[i].error);
      }
      var event := result[i].value;
      var eventData := event.fieldBytes;
      var eventSigTopic := FirstTopic(event);
      var unnamedFieldName: nat := 0;
      var fields: seq<Field> := [];
      ghost var all := DecodeFields(d, event, event.fields, event.fieldBytes, 0);
      var j := 0;
      assert event.fields[j..] == event.fields;
      PrependNothing(all);
      while j < |event.fields|
        invariant 0 <= j <= |event.fields|
        invariant all == Prepend(fields, DecodeFields(d, event, event.fields[j..], eventData, unnamedFieldName))
      {
        assert event.fields[j..][0] == event.fields[j] && event.fields[j..][1..] == event.fields[j + 1..];
        var fieldMetadata := event.fields[j];
        ghost var step := DecodeField(d, event, fieldMetadata, eventData, unnamedFieldName);
        ghost var old_data := eventData;
        if CONTRACT_EMITTED.IsEvent(event.palletName, event.variantName) && fieldMetadata.name == Some("data") {
          var dataField := ContractEventDataField(d.transcoder, fieldMetadata, eventSigTopic, eventData);
          fields := fields + [dataField.field];
          eventData := eventData[dataField.consumed..];
        } else {
          var fieldName: string;
          if fieldMetadata.name.Some? {
            fieldName := fieldMetadata.name.value;
          } else {
            fieldName := NatToString(unnamedFieldName);
            unnamedFieldName := unnamedFieldName + 1;
          }
          var decodedField := d.generic(fieldMetadata.ty, eventData);
          if decodedField.Err? {
            assert all == Err(decodedField.error);
            assert ItemOutcome(d, result[i]) == Err(decodedField.error);
            return Err(decodedField.error);
          }
          fields := fields + [Field(fieldName, decodedField.value.value, fieldMetadata.typeName)];
          eventData := eventData[decodedField.value.consumed..];
        }
        assert step.Ok? && step.value.field == fields[|fields| - 1] && step.value.unnamed == unnamedFieldName;
        assert old_data[step.value.consumed..] == eventData;
        PrependTwice(fields[..|fields| - 1], [fields[|fields| - 1]],
          DecodeFields(d, event, event.fields[j + 1..], eventData, unnamedFieldName));
        assert fields[..|fields| - 1] + [fields[|fields| - 1]] == fields;
        j := j + 1;
      }
      assert event.fields[j..] == [] && fields + [] == fields;
      assert all == Ok(fields);
      ghost var eventEntry := Event(event.palletName, event.variantName, fields);
      assert ItemOutcome(d, result[i]) == Ok(eventEntry);
      PrependTwice(events, [eventEntry], DecodeEvents(d, result[i + 1..]));
      events := events + [Event(event.palletName, event.variantName, fields)];
      i := i + 1;
    }
    assert result[i..] == [] && events + [] == events;
    return Ok(DisplayEvents(events));
  }
}
