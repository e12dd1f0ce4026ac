/** What `from_events` promises, proved about the specification functions
    of module Events (and so, through its postcondition, about the method
    `Events.FromEvents`). */
module EventProperties {
  import opened Common
  import opened Transcode
  import opened Events

  /** How many of the first `j` metadata entries have no name. */
  function UnnamedBefore(metas: seq<FieldMetadata>, j: nat): nat
    requires j <= |metas|
  {
    if j == 0 then 0 else UnnamedBefore(metas, j - 1) + (if metas[j - 1].name.None? then 1 else 0)
  }

  lemma {:induction false} UnnamedBeforeTail(metas: seq<FieldMetadata>, j: nat)
    requires 0 < |metas| && j < |metas|
    ensures UnnamedBefore(metas, j + 1) == (if metas[0].name.None? then 1 else 0) + UnnamedBefore(metas[1..], j)
  {
    if j > 0 {
      UnnamedBeforeTail(metas, j - 1);
    }
  }

  lemma {:induction false} UnnamedBeforeGrows(metas: seq<FieldMetadata>, j: nat, k: nat)
    requires j < k <= |metas| && metas[j].name.None?
    ensures UnnamedBefore(metas, j) < UnnamedBefore(metas, k)
  {
    if k > j + 1 {
      UnnamedBeforeGrows(metas, j, k - 1);
    }
  }

  /** One step of the walk: the first field comes from the per-field step
      and the others from the walk over the remaining metadata. */
  lemma UnfoldFields(d: Decoders, ev: EventDetails, metas: seq<FieldMetadata>, data: seq<Byte>, unnamed: nat) returns (step: Step)
    requires d.Valid() && DecodeFields(d, ev, metas, data, unnamed).Ok? && metas != []
    ensures DecodeField(d, ev, metas[0], data, unnamed) == Ok(step)
    ensures step.consumed <= |data|
    ensures DecodeFields(d, ev, metas[1..], data[step.consumed..], step.unnamed).Ok?
    ensures DecodeFields(d, ev, metas, data, unnamed).value
      == [step.field] + DecodeFields(d, ev, metas[1..], data[step.consumed..], step.unnamed).value
  {
    step := DecodeField(d, ev, metas[0], data, unnamed).value;
  }

  /** The field at position `j` carries the metadata's type name and is
      named by its declared name, or else by the number of unnamed entries
      before it (counted from `unnamed`). */
  lemma {:induction false} FieldNameAt(d: Decoders, ev: EventDetails, metas: seq<FieldMetadata>, data: seq<Byte>, unnamed: nat, j: nat)
    requires d.Valid() && DecodeFields(d, ev, metas, data, unnamed).Ok? && j < |metas|
    ensures DecodeFields(d, ev, metas, data, unnamed).value[j].name == FieldName(metas[j], unnamed + UnnamedBefore(metas, j))
    ensures DecodeFields(d, ev, metas, data, unnamed).value[j].typeName == metas[j].typeName
  {
    var step := UnfoldFields(d, ev, metas, data, unnamed);
    if j > 0 {
      FieldNameAt(d, ev, metas[1..], data[step.consumed..], step.unnamed, j - 1);
      UnnamedBeforeTail(metas, j - 1);
      assert metas[1..][j - 1] == metas[j];
    }
  }

  /** How far the shared cursor has advanced after the first `j` steps of
      a walk: the bytes those steps consumed, each step starting where the
      previous one left the cursor. (Meaningful while those steps succeed,
      which `DecodeFields(.., metas[..j], ..).Ok?` states.) */
  function Offset(d: Decoders, ev: EventDetails, metas: seq<FieldMetadata>, data: seq<Byte>, unnamed: nat, j: nat): (n: nat)
    requires d.Valid() && j <= |metas|
    ensures n <= |data|
    decreases j
  {
    if j == 0 then 0
    else
      match DecodeField(d, ev, metas[0], data, unnamed)
      case Err(_) => 0
      case Ok(step) => step.consumed + Offset(d, ev, metas[1..], data[step.consumed..], step.unnamed, j - 1)
  }

  /** One step of `Offset`: after a successful first step, the cursor of
      the remaining walk starts where that step left it. */
  lemma OffsetTail(d: Decoders, ev: EventDetails, metas: seq<FieldMetadata>, data: seq<Byte>, unnamed: nat, j: nat, step: Step)
    requires d.Valid() && 0 < j <= |metas| && DecodeField(d, ev, metas[0], data, unnamed) == Ok(step)
    ensures step.consumed + Offset(d, ev, metas[1..], data[step.consumed..], step.unnamed, j - 1) == Offset(d, ev, metas, data, unnamed, j)
    ensures data[step.consumed..][Offset(d, ev, metas[1..], data[step.consumed..], step.unnamed, j - 1)..]
      == data[Offset(d, ev, metas, data, unnamed, j)..]
  {
    var p := Offset(d, ev, metas[1..], data[step.consumed..], step.unnamed, j - 1);
    assert data[step.consumed..][p..] == data[step.consumed + p..];
  }

  /** Moving from a walk to the walk after its first step shifts field
      `j` to `j - 1`, keeping the cursor position and the counter it sees. */
  lemma StepShift(d: Decoders, ev: EventDetails, metas: seq<FieldMetadata>, data: seq<Byte>, unnamed: nat, j: nat, step: Step)
    requires d.Valid() && 0 < j < |metas| && DecodeField(d, ev, metas[0], data, unnamed) == Ok(step)
    ensures metas[1..][j - 1] == metas[j]
    ensures data[step.consumed..][Offset(d, ev, metas[1..], data[step.consumed..], step.unnamed, j - 1)..]
      == data[Offset(d, ev, metas, data, unnamed, j)..]
    ensures step.unnamed + UnnamedBefore(metas[1..], j - 1) == unnamed + UnnamedBefore(metas, j)
    ensures DecodeField(d, ev, metas[1..][j - 1],
                        data[step.consumed..][Offset(d, ev, metas[1..], data[step.consumed..], step.unnamed, j - 1)..],
                        step.unnamed + UnnamedBefore(metas[1..], j - 1))
      == DecodeField(d, ev, metas[j], data[Offset(d, ev, metas, data, unnamed, j)..], unnamed + UnnamedBefore(metas, j))
  {
    OffsetTail(d, ev, metas, data, unnamed, j, step);
    UnnamedBeforeTail(metas, j - 1);
  }

  /** The inductive step of `FieldStepAt`: the step that yields field
      `j - 1` of the walk after the first step yields field `j` of the
      whole walk. */
  lemma ShiftField(d: Decoders, ev: EventDetails, metas: seq<FieldMetadata>, data: seq<Byte>, unnamed: nat, j: nat, step: Step, at: Step)
    requires d.Valid() && 0 < j < |metas| && DecodeField(d, ev, metas[0], data, unnamed) == Ok(step)
    requires DecodeFields(d, ev, metas[1..], data[step.consumed..], step.unnamed).Ok?
    requires DecodeField(d, ev, metas[1..][j - 1],
                         data[step.consumed..][Offset(d, ev, metas[1..], data[step.consumed..], step.unnamed, j - 1)..],
                         step.unnamed + UnnamedBefore(metas[1..], j - 1)) == Ok(at)
    requires at.field == DecodeFields(d, ev, metas[1..], data[step.consumed..], step.unnamed).value[j - 1]
    ensures DecodeField(d, ev, metas[j], data[Offset(d, ev, metas, data, unnamed, j)..], unnamed + UnnamedBefore(metas, j)) == Ok(at)
    ensures at.field == DecodeFields(d, ev, metas, data, unnamed).value[j]
  {
    StepShift(d, ev, metas, data, unnamed, j, step);
    var rest := DecodeFields(d, ev, metas[1..], data[step.consumed..], step.unnamed).value;
    assert DecodeFields(d, ev, metas, data, unnamed).value == [step.field] + rest;
    assert ([step.field] + rest)[j] == rest[j - 1];
  }

  /** The field at position `j` is what the per-field step produces with
      the cursor where the first `j` steps left it and the counter at the
      number of unnamed entries before it. */
  lemma {:induction false} FieldStepAt(d: Decoders, ev: EventDetails, metas: seq<FieldMetadata>, data: seq<Byte>, unnamed: nat, j: nat)
    returns (at: Step)
    requires d.Valid() && DecodeFields(d, ev, metas, data, unnamed).Ok? && j < |metas|
    ensures DecodeField(d, ev, metas[j], data[Offset(d, ev, metas, data, unnamed, j)..], unnamed + UnnamedBefore(metas, j)) == Ok(at)
    ensures at.field == DecodeFields(d, ev, metas, data, unnamed).value[j]
    decreases j
  {
    var step := UnfoldFields(d, ev, metas, data, unnamed);
    if j == 0 {
      assert data[0..] == data;
      at := step;
    } else {
      at := FieldStepAt(d, ev, metas[1..], data[step.consumed..], step.unnamed, j - 1);
      ShiftField(d, ev, metas, data, unnamed, j, step, at);
    }
  }

  /** The walk over the first `k + 1` entries, after a successful first
      step, is that step's field before the walk over the next `k`. */
  lemma PrefixStep(d: Decoders, ev: EventDetails, metas: seq<FieldMetadata>, data: seq<Byte>, unnamed: nat, k: nat, step: Step)
    requires d.Valid() && k < |metas| && DecodeField(d, ev, metas[0], data, unnamed) == Ok(step)
    ensures DecodeFields(d, ev, metas[..k + 1], data, unnamed)
      == Prepend([step.field], DecodeFields(d, ev, metas[1..][..k], data[step.consumed..], step.unnamed))
  {
    assert metas[..k + 1][0] == metas[0];
    assert metas[..k + 1][1..] == metas[1..][..k];
  }

  /** Where a failed walk failed: the first `j` steps succeed, entry `j`
      is not the contract payload, and the generic decoder, given the
      cursor where those steps left it, returns the walk's error. */
  lemma {:induction false} FailureAt(d: Decoders, ev: EventDetails, metas: seq<FieldMetadata>, data: seq<Byte>, unnamed: nat)
    returns (j: nat)
    requires d.Valid() && DecodeFields(d, ev, metas, data, unnamed).Err?
    ensures j < |metas|
    ensures DecodeFields(d, ev, metas[..j], data, unnamed).Ok?
    ensures !IsContractDataField(ev, metas[j])
    ensures d.generic(metas[j].ty, data[Offset(d, ev, metas, data, unnamed, j)..]) == Err(DecodeFields(d, ev, metas, data, unnamed).error)
  {
    var first := DecodeField(d, ev, metas[0], data, unnamed);
    if first.Err? {
      j := 0;
      assert data[0..] == data;
    } else {
      var step := first.value;
      var k := FailureAt(d, ev, metas[1..], data[step.consumed..], step.unnamed);
      j := k + 1;
      PrefixStep(d, ev, metas, data, unnamed, k, step);
      StepShift(d, ev, metas, data, unnamed, j, step);
    }
  }

  /** The converse: once the first `j` steps succeed, a generic-decoder
      error on a non-payload entry `j`, at the cursor those steps left,
      fails the walk with that error. */
  lemma {:induction false} FailsAt(d: Decoders, ev: EventDetails, metas: seq<FieldMetadata>, data: seq<Byte>, unnamed: nat, j: nat)
    requires d.Valid() && j < |metas| && DecodeFields(d, ev, metas[..j], data, unnamed).Ok?
    requires !IsContractDataField(ev, metas[j])
    requires d.generic(metas[j].ty, data[Offset(d, ev, metas, data, unnamed, j)..]).Err?
    ensures DecodeFields(d, ev, metas, data, unnamed)
      == Err(d.generic(metas[j].ty, data[Offset(d, ev, metas, data, unnamed, j)..]).error)
  {
    if j == 0 {
      assert data[0..] == data;
    } else {
      assert metas[..j][0] == metas[0];
      var step := DecodeField(d, ev, metas[0], data, unnamed).value;
      PrefixStep(d, ev, metas, data, unnamed, j - 1, step);
      StepShift(d, ev, metas, data, unnamed, j, step);
      FailsAt(d, ev, metas[1..], data[step.consumed..], step.unnamed, j - 1);
    }
  }

  /** The first `j` fields of an event decode. */
  predicate DecodesBefore(d: Decoders, ev: EventDetails, j: nat)
    requires d.Valid() && j <= |ev.fields|
  {
    DecodeFields(d, ev, ev.fields[..j], ev.fieldBytes, 0).Ok?
  }

  /** All or nothing within an event: decoding fails only where the first
      fields decoded and then the generic decoder failed, at the cursor
      they left, on a field other than the contract payload; that
      decoder's error is the event's error. */
  lemma EventFailure(d: Decoders, ev: EventDetails)
    requires d.Valid() && DecodeEvent(d, ev).Err?
    ensures exists j ::
      && 0 <= j < |ev.fields| && DecodesBefore(d, ev, j)
      && !IsContractDataField(ev, ev.fields[j])
      && d.generic(ev.fields[j].ty, ev.fieldBytes[Offset(d, ev, ev.fields, ev.fieldBytes, 0, j)..]) == Err(DecodeEvent(d, ev).error)
  {
    var j := FailureAt(d, ev, ev.fields, ev.fieldBytes, 0);
  }

  /** The converse: such a failure fails the event with that error. */
  lemma EventFailsAt(d: Decoders, ev: EventDetails, j: nat)
    requires d.Valid() && j < |ev.fields| && DecodesBefore(d, ev, j)
    requires !IsContractDataField(ev, ev.fields[j])
    requires d.generic(ev.fields[j].ty, ev.fieldBytes[Offset(d, ev, ev.fields, ev.fieldBytes, 0, j)..]).Err?
    ensures DecodeEvent(d, ev) == Err(d.generic(ev.fields[j].ty, ev.fieldBytes[Offset(d, ev, ev.fields, ev.fieldBytes, 0, j)..]).error)
  {
    FailsAt(d, ev, ev.fields, ev.fieldBytes, 0, j);
  }

  /** The name and type name of field `j` of a decoded event. */
  lemma EventFieldNameAt(d: Decoders, ev: EventDetails, j: nat)
    requires d.Valid() && DecodeEvent(d, ev).Ok? && j < |ev.fields|
    ensures ev.fields[j].name.Some? ==> DecodeEvent(d, ev).value.fields[j].name == ev.fields[j].name.value
    ensures ev.fields[j].name.None? ==> DecodeEvent(d, ev).value.fields[j].name == NatToString(UnnamedBefore(ev.fields, j))
    ensures DecodeEvent(d, ev).value.fields[j].typeName == ev.fields[j].typeName
  {
    assert DecodeEvent(d, ev).value.fields == DecodeFields(d, ev, ev.fields, ev.fieldBytes, 0).value;
    FieldNameAt(d, ev, ev.fields, ev.fieldBytes, 0, j);
    var u := UnnamedBefore(ev.fields, j);
    assert DecodeEvent(d, ev).value.fields[j].name == FieldName(ev.fields[j], 0 + u);
    assert 0 + u == u;
  }

  /** Field naming of a decoded event: one field per metadata entry, with
      its type name; declared names are kept, unnamed fields get "0", "1",
      ... in order, counted per event. */
  lemma FieldNaming(d: Decoders, ev: EventDetails)
    requires d.Valid() && DecodeEvent(d, ev).Ok?
    ensures |DecodeEvent(d, ev).value.fields| == |ev.fields|
    ensures forall j :: 0 <= j < |ev.fields| && ev.fields[j].name.Some? ==>
      DecodeEvent(d, ev).value.fields[j].name == ev.fields[j].name.value
    ensures forall j :: 0 <= j < |ev.fields| && ev.fields[j].name.None? ==>
      DecodeEvent(d, ev).value.fields[j].name == NatToString(UnnamedBefore(ev.fields, j))
    ensures forall j :: 0 <= j < |ev.fields| ==>
      DecodeEvent(d, ev).value.fields[j].typeName == ev.fields[j].typeName
  {
    forall j | 0 <= j < |ev.fields| {
      EventFieldNameAt(d, ev, j);
    }
  }

  /** Two unnamed fields of one event never get the same positional name. */
  lemma PositionalNamesDistinct(d: Decoders, ev: EventDetails, j: nat, k: nat)
    requires d.Valid() && DecodeEvent(d, ev).Ok?
    requires j < k < |ev.fields| && ev.fields[j].name.None? && ev.fields[k].name.None?
    ensures DecodeEvent(d, ev).value.fields[j].name != DecodeEvent(d, ev).value.fields[k].name
  {
    EventFieldNameAt(d, ev, j);
    EventFieldNameAt(d, ev, k);
    UnnamedBeforeGrows(ev.fields, j, k);
    NatToStringInjective(UnnamedBefore(ev.fields, j), UnnamedBefore(ev.fields, k));
  }

  /** Field `j` of a decoded event is the single-field step at the cursor
      where the earlier fields left it. */
  lemma EventStepAt(d: Decoders, ev: EventDetails, j: nat)
    requires d.Valid() && DecodeEvent(d, ev).Ok? && j < |ev.fields|
    ensures DecodeField(d, ev, ev.fields[j], ev.fieldBytes[Offset(d, ev, ev.fields, ev.fieldBytes, 0, j)..], UnnamedBefore(ev.fields, j)).Ok?
    ensures DecodeField(d, ev, ev.fields[j], ev.fieldBytes[Offset(d, ev, ev.fields, ev.fieldBytes, 0, j)..], UnnamedBefore(ev.fields, j)).value.field
      == DecodeEvent(d, ev).value.fields[j]
  {
    var at := FieldStepAt(d, ev, ev.fields, ev.fieldBytes, 0, j);
  }

  /** Dispatch of the contract payload: the "data" field of
      `Contracts`/`ContractEmitted` is built by `ContractEventDataField`
      from the cursor where the earlier fields left it. */
  lemma PayloadFieldAt(d: Decoders, ev: EventDetails, j: nat)
    requires d.Valid() && DecodeEvent(d, ev).Ok? && j < |ev.fields|
    requires IsContractDataField(ev, ev.fields[j])
    ensures DecodeEvent(d, ev).value.fields[j]
      == ContractEventDataField(d.transcoder, ev.fields[j], FirstTopic(ev), ev.fieldBytes[Offset(d, ev, ev.fields, ev.fieldBytes, 0, j)..]).field
  {
    var rest := ev.fieldBytes[Offset(d, ev, ev.fields, ev.fieldBytes, 0, j)..];
    var u := UnnamedBefore(ev.fields, j);
    var st := DecodeField(d, ev, ev.fields[j], rest, u);
    assert st.Ok? && st.value.field == DecodeEvent(d, ev).value.fields[j] by {
      EventStepAt(d, ev, j);
    }
  }

  /** A successful step on a field other than the contract payload is
      the generic decoder's success. */
  lemma GenericStep(d: Decoders, ev: EventDetails, meta: FieldMetadata, data: seq<Byte>, unnamed: nat)
    requires d.Valid() && !IsContractDataField(ev, meta) && DecodeField(d, ev, meta, data, unnamed).Ok?
    ensures d.generic(meta.ty, data).Ok?
    ensures DecodeField(d, ev, meta, data, unnamed).value.field
      == Field(FieldName(meta, unnamed), d.generic(meta.ty, data).value.value, meta.typeName)
  {
  }

  /** Dispatch of every other field: the generic decoder's value at the
      cursor where the earlier fields left it, named as `FieldName` says
      for the number of unnamed fields before it, with its type name. */
  lemma GenericFieldAt(d: Decoders, ev: EventDetails, j: nat)
    requires d.Valid() && DecodeEvent(d, ev).Ok? && j < |ev.fields|
    requires !IsContractDataField(ev, ev.fields[j])
    ensures d.generic(ev.fields[j].ty, ev.fieldBytes[Offset(d, ev, ev.fields, ev.fieldBytes, 0, j)..]).Ok?
    ensures DecodeEvent(d, ev).value.fields[j]
      == Field(FieldName(ev.fields[j], UnnamedBefore(ev.fields, j)),
               d.generic(ev.fields[j].ty, ev.fieldBytes[Offset(d, ev, ev.fields, ev.fieldBytes, 0, j)..]).value.value,
               ev.fields[j].typeName)
  {
    var rest := ev.fieldBytes[Offset(d, ev, ev.fields, ev.fieldBytes, 0, j)..];
    var u := UnnamedBefore(ev.fields, j);
    var st := DecodeField(d, ev, ev.fields[j], rest, u);
    assert st.Ok? && st.value.field == DecodeEvent(d, ev).value.fields[j] by {
      EventStepAt(d, ev, j);
    }
    GenericStep(d, ev, ev.fields[j], rest, u);
  }

  /** Dispatch: the "data" field of `Contracts`/`ContractEmitted` is built
      by `ContractEventDataField`, every other field is the generic
      decoder's value, named as `FieldName` says, with its type name; both
      read the cursor where the earlier fields left it. */
  lemma FieldDispatch(d: Decoders, ev: EventDetails, j: nat)
    requires d.Valid() && DecodeEvent(d, ev).Ok? && j < |ev.fields|
    ensures var rest := ev.fieldBytes[Offset(d, ev, ev.fields, ev.fieldBytes, 0, j)..];
      if IsContractDataField(ev, ev.fields[j]) then
        DecodeEvent(d, ev).value.fields[j] == ContractEventDataField(d.transcoder, ev.fields[j], FirstTopic(ev), rest).field
      else
        && d.generic(ev.fields[j].ty, rest).Ok?
        && DecodeEvent(d, ev).value.fields[j] ==
             Field(FieldName(ev.fields[j], UnnamedBefore(ev.fields, j)), d.generic(ev.fields[j].ty, rest).value.value, ev.fields[j].typeName)
  {
    if IsContractDataField(ev, ev.fields[j]) {
      PayloadFieldAt(d, ev, j);
    } else {
      GenericFieldAt(d, ev, j);
    }
  }

  /** An item of the batch that decodes. */
  predicate ItemOk(d: Decoders, items: seq<Result<EventDetails>>, i: nat)
    requires d.Valid() && i < |items|
  {
    ItemOutcome(d, items[i]).Ok?
  }

  /** Order and identity: one event per raw event, in order, each with the
      raw event's pallet and variant name and its decoded fields. */
  lemma {:induction false} DecodeEventsInOrder(d: Decoders, items: seq<Result<EventDetails>>)
    requires d.Valid() && DecodeEvents(d, items).Ok?
    ensures |DecodeEvents(d, items).value| == |items|
    ensures forall i :: 0 <= i < |items| ==>
      items[i].Ok? && DecodeEvent(d, items[i].value) == Ok(DecodeEvents(d, items).value[i])
    ensures forall i :: 0 <= i < |items| ==>
      DecodeEvents(d, items).value[i].pallet == items[i].value.palletName &&
      DecodeEvents(d, items).value[i].name == items[i].value.variantName
  {
    if items != [] {
      DecodeEventsInOrder(d, items[1..]);
      var evs := DecodeEvents(d, items).value;
      assert evs == [ItemOutcome(d, items[0]).value] + DecodeEvents(d, items[1..]).value;
      forall i | 0 < i < |items|
        ensures items[i].Ok? && DecodeEvent(d, items[i].value) == Ok(evs[i])
      {
        assert items[1..][i - 1] == items[i];
      }
    }
  }

  /** All or nothing: the batch decodes exactly when every item decodes;
      otherwise the error is that of the first item that does not. */
  lemma {:induction false} DecodeEventsAllOrNothing(d: Decoders, items: seq<Result<EventDetails>>)
    requires d.Valid()
    ensures DecodeEvents(d, items).Ok? <==> forall i :: 0 <= i < |items| ==> ItemOk(d, items, i)
    ensures forall i :: 0 <= i < |items| && !ItemOk(d, items, i) && (forall k :: 0 <= k < i ==> ItemOk(d, items, k)) ==>
      DecodeEvents(d, items) == Err(ItemOutcome(d, items[i]).error)
  {
    if items != [] {
      var tail := items[1..];
      DecodeEventsAllOrNothing(d, tail);
      forall i | 0 < i < |items|
        ensures ItemOk(d, items, i) == ItemOk(d, tail, i - 1)
      {
        assert tail[i - 1] == items[i];
      }
      if ItemOk(d, items, 0) {
        var first := ItemOutcome(d, items[0]).value;
        assert DecodeEvents(d, items) == Prepend([first], DecodeEvents(d, tail));
        assert DecodeEvents(d, items).Ok? <==> DecodeEvents(d, tail).Ok?;
        if forall i :: 0 <= i < |items| ==> ItemOk(d, items, i) {
          forall i | 0 <= i < |tail| ensures ItemOk(d, tail, i) {
            assert ItemOk(d, items, i + 1);
          }
        }
        if DecodeEvents(d, tail).Ok? {
          forall i | 0 <= i < |items| ensures ItemOk(d, items, i) {
            if i > 0 {
              assert ItemOk(d, tail, i - 1);
            }
          }
        }
        forall i | 0 < i < |items| && !ItemOk(d, items, i) && (forall k :: 0 <= k < i ==> ItemOk(d, items, k))
          ensures DecodeEvents(d, items) == Err(ItemOutcome(d, items[i]).error)
        {
          forall k | 0 <= k < i - 1 ensures ItemOk(d, tail, k) {
            assert ItemOk(d, items, k + 1);
          }
          assert tail[i - 1] == items[i];
        }
      }
    }
  }
}
