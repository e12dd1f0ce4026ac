/** What `display_events` promises about its output, proved about the
    specification function `Display.Render` (and so, through its
    postcondition, about the method `Display.DisplayEventsLines`). */
module DisplayProperties {
  import opened Common
  import opened Transcode
  import opened Events
  import opened Display
  import opened EventProperties

  /** Field line `k` shows field `k`'s name and value text. */
  lemma {:induction false} FieldLineAt(fields: seq<Field>, show: ValueDisplay, format: BalanceFormatter, k: nat)
    requires FieldLines(fields, show, format).Ok? && k < |fields|
    ensures FieldValueText(fields[k], show, format).Ok?
    ensures FieldLines(fields, show, format).value[k] == FieldLine(fields[k].name, FieldValueText(fields[k], show, format).value)
  {
    var rest := FieldLines(fields[1..], show, format);
    assert FieldLines(fields, show, format).value
      == [FieldLine(fields[0].name, FieldValueText(fields[0], show, format).value)] + rest.value;
    if k > 0 {
      FieldLineAt(fields[1..], show, format, k - 1);
      assert fields[1..][k - 1] == fields[k];
    }
  }

  /** Number of fields of the events before event `i`. */
  function FieldsBefore(events: seq<Event>, i: nat): nat
    requires i <= |events|
  {
    if i == 0 then 0 else |events[0].fields| + FieldsBefore(events[1..], i - 1)
  }

  /** Where event `i`'s event line sits among the lines of all events. */
  function EventStart(events: seq<Event>, verbose: bool, i: nat): nat
    requires i <= |events|
  {
    i + if verbose then FieldsBefore(events, i) else 0
  }

  /** Event `i`'s event line sits at `EventStart` among the lines of all
      events. */
  lemma {:induction false} EventLineAt(events: seq<Event>, verbose: bool, show: ValueDisplay, format: BalanceFormatter, i: nat)
    requires EventLines(events, verbose, show, format).Ok? && i < |events|
    ensures EventStart(events, verbose, i) < |EventLines(events, verbose, show, format).value|
    ensures EventLines(events, verbose, show, format).value[EventStart(events, verbose, i)]
      == EventLine(events[i].pallet, events[i].name)
  {
    var block := EventBlock(events[0], verbose, show, format).value;
    var rest := EventLines(events[1..], verbose, show, format).value;
    assert EventLines(events, verbose, show, format).value == block + rest;
    if i > 0 {
      EventLineAt(events[1..], verbose, show, format, i - 1);
      assert events[1..][i - 1] == events[i];
      assert EventStart(events, verbose, i) == |block| + EventStart(events[1..], verbose, i - 1);
    }
  }

  /** In verbose mode, field `k` of event `i` has its line `1 + k` lines
      after the event line. */
  lemma {:induction false} EventFieldLineAt(events: seq<Event>, show: ValueDisplay, format: BalanceFormatter, i: nat, k: nat)
    requires EventLines(events, true, show, format).Ok? && i < |events| && k < |events[i].fields|
    ensures FieldLines(events[i].fields, show, format).Ok?
    ensures EventStart(events, true, i) + 1 + k < |EventLines(events, true, show, format).value|
    ensures EventLines(events, true, show, format).value[EventStart(events, true, i) + 1 + k]
      == FieldLines(events[i].fields, show, format).value[k]
  {
    var block := EventBlock(events[0], true, show, format).value;
    var rest := EventLines(events[1..], true, show, format).value;
    assert EventLines(events, true, show, format).value == block + rest;
    if i == 0 {
      var fields := FieldLines(events[0].fields, show, format).value;
      assert (block + rest)[1 + k] == fields[k] by {
        assert block == [EventLine(events[0].pallet, events[0].name)] + fields;
        assert block[1 + k] == fields[k];
      }
    } else {
      EventFieldLineAt(events[1..], show, format, i - 1, k);
      assert events[1..][i - 1] == events[i];
      assert EventStart(events, true, i) == |block| + EventStart(events[1..], true, i - 1);
    }
  }

  /** Quiet rendering: the header, then exactly one event line per event,
      in order; the balance formatter is never consulted, so it cannot fail. */
  lemma {:induction false} QuietEventLines(events: seq<Event>, show: ValueDisplay, format: BalanceFormatter)
    ensures EventLines(events, false, show, format).Ok?
    ensures forall i :: 0 <= i < |events| ==>
      EventLines(events, false, show, format).value[i] == EventLine(events[i].pallet, events[i].name)
  {
    if events != [] {
      QuietEventLines(events[1..], show, format);
      var rest := EventLines(events[1..], false, show, format).value;
      assert EventLines(events, false, show, format).value == [EventLine(events[0].pallet, events[0].name)] + rest;
      forall i | 0 < i < |events|
        ensures EventLines(events, false, show, format).value[i] == EventLine(events[i].pallet, events[i].name)
      {
        assert events[1..][i - 1] == events[i];
      }
    }
  }

  lemma RenderQuiet(d: DisplayEvents, show: ValueDisplay, format: BalanceFormatter)
    ensures Render(d, false, show, format).Ok?
    ensures |Render(d, false, show, format).value| == 1 + |d.events|
    ensures Render(d, false, show, format).value[0] == Header
    ensures forall i :: 0 <= i < |d.events| ==>
      Render(d, false, show, format).value[1 + i] == EventLine(d.events[i].pallet, d.events[i].name)
  {
    QuietEventLines(d.events, show, format);
  }

  /** Consecutive events are one event line plus, when verbose, their
      field lines apart. */
  lemma {:induction false} EventStartNext(events: seq<Event>, verbose: bool, i: nat)
    requires i < |events|
    ensures EventStart(events, verbose, i + 1)
      == EventStart(events, verbose, i) + 1 + (if verbose then |events[i].fields| else 0)
  {
    FieldsBeforeNext(events, i);
  }

  lemma {:induction false} FieldsBeforeNext(events: seq<Event>, i: nat)
    requires i < |events|
    ensures FieldsBefore(events, i + 1) == FieldsBefore(events, i) + |events[i].fields|
  {
    if i > 0 {
      FieldsBeforeNext(events[1..], i - 1);
      assert events[1..][i - 1] == events[i];
    }
  }

  /** All events together hold `TotalFields` fields. */
  lemma {:induction false} FieldsBeforeAll(events: seq<Event>)
    ensures FieldsBefore(events, |events|) == TotalFields(events)
  {
    if events != [] {
      FieldsBeforeAll(events[1..]);
    }
  }

  /** Layout, event lines: the output starts with the header, and the line
      of event `i` comes after it and after the lines of all earlier events
      and, when verbose, their fields; the next event starts one event line
      and, when verbose, this event's field lines later; and the blocks end
      exactly where the output ends. */
  lemma RenderEventLine(d: DisplayEvents, verbose: bool, show: ValueDisplay, format: BalanceFormatter, i: nat)
    requires Render(d, verbose, show, format).Ok? && i < |d.events|
    ensures Render(d, verbose, show, format).value[0] == Header
    ensures 1 + EventStart(d.events, verbose, i) < |Render(d, verbose, show, format).value|
    ensures Render(d, verbose, show, format).value[1 + EventStart(d.events, verbose, i)]
      == EventLine(d.events[i].pallet, d.events[i].name)
    ensures EventStart(d.events, verbose, i + 1)
      == EventStart(d.events, verbose, i) + 1 + (if verbose then |d.events[i].fields| else 0)
    ensures 1 + EventStart(d.events, verbose, |d.events|) == |Render(d, verbose, show, format).value|
  {
    var lines := EventLines(d.events, verbose, show, format).value;
    assert Render(d, verbose, show, format).value == [Header] + lines;
    EventLineAt(d.events, verbose, show, format, i);
    EventStartNext(d.events, verbose, i);
    FieldsBeforeAll(d.events);
  }

  /** Verbose layout, field lines: field `k` of event `i` is shown `1 + k`
      lines after its event line, with the field's name and the value text
      `RendersValue` describes (the formatted balance exactly for a
      balance-typed unsigned value). */
  lemma RenderFieldLine(d: DisplayEvents, show: ValueDisplay, format: BalanceFormatter, i: nat, k: nat)
    requires Render(d, true, show, format).Ok? && i < |d.events| && k < |d.events[i].fields|
    ensures 1 + EventStart(d.events, true, i) + 1 + k < |Render(d, true, show, format).value|
    ensures var line := Render(d, true, show, format).value[1 + EventStart(d.events, true, i) + 1 + k];
      && line.FieldLine?
      && line.name == d.events[i].fields[k].name
      && RendersValue(d.events[i].fields[k], line.value, show, format)
  {
    var lines := EventLines(d.events, true, show, format).value;
    assert Render(d, true, show, format).value == [Header] + lines;
    EventFieldLineAt(d.events, show, format, i, k);
    FieldLineAt(d.events[i].fields, show, format, k);
  }

  /** Field `k` of event `i` is a balance the formatter rejects. */
  predicate BalanceFailsAt(events: seq<Event>, format: BalanceFormatter, i: nat, k: nat)
    requires i < |events| && k < |events[i].fields|
  {
    ShowsAsBalance(events[i].fields[k]) && format(events[i].fields[k].value.n).Err?
  }

  lemma {:induction false} FieldLinesFailure(fields: seq<Field>, show: ValueDisplay, format: BalanceFormatter) returns (k: nat)
    requires FieldLines(fields, show, format).Err?
    ensures k < |fields| && FieldValueText(fields[k], show, format) == Err(FieldLines(fields, show, format).error)
    ensures forall k' :: 0 <= k' < k ==> FieldValueText(fields[k'], show, format).Ok?
  {
    if FieldValueText(fields[0], show, format).Err? {
      k := 0;
    } else {
      var k' := FieldLinesFailure(fields[1..], show, format);
      assert fields[1..][k'] == fields[k' + 1];
      k := k' + 1;
      forall k'' | 0 < k'' < k ensures FieldValueText(fields[k''], show, format).Ok? {
        assert fields[1..][k'' - 1] == fields[k''];
      }
    }
  }

  lemma {:induction false} FieldLinesFailsAt(fields: seq<Field>, show: ValueDisplay, format: BalanceFormatter, k: nat)
    requires k < |fields| && FieldValueText(fields[k], show, format).Err?
    ensures FieldLines(fields, show, format).Err?
  {
    if k > 0 && FieldValueText(fields[0], show, format).Ok? {
      assert fields[1..][k - 1] == fields[k];
      FieldLinesFailsAt(fields[1..], show, format, k - 1);
    }
  }

  lemma {:induction false} EventLinesFailure(events: seq<Event>, verbose: bool, show: ValueDisplay, format: BalanceFormatter)
    returns (i: nat, k: nat)
    requires EventLines(events, verbose, show, format).Err?
    ensures verbose && i < |events| && k < |events[i].fields|
    ensures FieldValueText(events[i].fields[k], show, format) == Err(EventLines(events, verbose, show, format).error)
    ensures forall i' :: 0 <= i' < i ==> FieldLines(events[i'].fields, show, format).Ok?
    ensures forall k' :: 0 <= k' < k ==> FieldValueText(events[i].fields[k'], show, format).Ok?
  {
    var block := EventBlock(events[0], verbose, show, format);
    if block.Err? {
      assert verbose;
      i := 0;
      k := FieldLinesFailure(events[0].fields, show, format);
    } else {
      var i';
      i', k := EventLinesFailure(events[1..], verbose, show, format);
      assert events[1..][i'] == events[i' + 1];
      i := i' + 1;
      forall i'' | 0 <= i'' < i ensures FieldLines(events[i''].fields, show, format).Ok? {
        if i'' > 0 {
          assert events[1..][i'' - 1] == events[i''];
        }
      }
    }
  }

  lemma {:induction false} EventLinesFailsAt(events: seq<Event>, show: ValueDisplay, format: BalanceFormatter, i: nat, k: nat)
    requires i < |events| && k < |events[i].fields| && FieldValueText(events[i].fields[k], show, format).Err?
    ensures EventLines(events, true, show, format).Err?
  {
    if i == 0 {
      FieldLinesFailsAt(events[0].fields, show, format, k);
    } else if EventBlock(events[0], true, show, format).Ok? {
      assert events[1..][i - 1] == events[i];
      EventLinesFailsAt(events[1..], show, format, i - 1, k);
    }
  }

  /** Field `k` of event `i` is the first balance the formatter rejects:
      the first in event order, and within its event in field order. */
  predicate FirstBalanceFailure(events: seq<Event>, format: BalanceFormatter, i: nat, k: nat)
    requires i < |events| && k < |events[i].fields|
  {
    && BalanceFailsAt(events, format, i, k)
    && (forall i', k' :: 0 <= i' < i && 0 <= k' < |events[i'].fields| ==> !BalanceFailsAt(events, format, i', k'))
    && (forall k' :: 0 <= k' < k ==> !BalanceFailsAt(events, format, i, k'))
  }

  /** Rendering fails exactly in verbose mode when some field is a balance
      the formatter rejects, and then with the formatter's error for the
      first such field. */
  lemma RenderFailure(d: DisplayEvents, verbose: bool, show: ValueDisplay, format: BalanceFormatter)
    ensures Render(d, verbose, show, format).Err? ==>
      && verbose
      && (exists i, k :: && 0 <= i < |d.events| && 0 <= k < |d.events[i].fields|
                         && FirstBalanceFailure(d.events, format, i, k)
                         && format(d.events[i].fields[k].value.n) == Err(Render(d, verbose, show, format).error))
    ensures (verbose && exists i, k :: 0 <= i < |d.events| && 0 <= k < |d.events[i].fields| && BalanceFailsAt(d.events, format, i, k)) ==>
      Render(d, verbose, show, format).Err?
  {
    if Render(d, verbose, show, format).Err? {
      var i, k := EventLinesFailure(d.events, verbose, show, format);
      forall i', k' | 0 <= i' < i && 0 <= k' < |d.events[i'].fields|
        ensures !BalanceFailsAt(d.events, format, i', k')
      {
        FieldLineAt(d.events[i'].fields, show, format, k');
      }
      forall k' | 0 <= k' < k ensures !BalanceFailsAt(d.events, format, i, k') {
      }
      assert FirstBalanceFailure(d.events, format, i, k);
    }
    if verbose && exists i, k :: 0 <= i < |d.events| && 0 <= k < |d.events[i].fields| && BalanceFailsAt(d.events, format, i, k) {
      var i, k :| 0 <= i < |d.events| && 0 <= k < |d.events[i].fields| && BalanceFailsAt(d.events, format, i, k);
      EventLinesFailsAt(d.events, show, format, i, k);
    }
  }

  /** Number of field metadata entries of the raw events of a batch. */
  function MetadataEntries(items: seq<Result<EventDetails>>): nat {
    if items == [] then 0
    else (if items[0].Ok? then |items[0].value.fields| else 0) + MetadataEntries(items[1..])
  }

  lemma {:induction false} DecodedFieldCount(d: Decoders, items: seq<Result<EventDetails>>)
    requires d.Valid() && DecodeEvents(d, items).Ok?
    ensures TotalFields(DecodeEvents(d, items).value) == MetadataEntries(items)
  {
    if items != [] {
      DecodedFieldCount(d, items[1..]);
      var first := ItemOutcome(d, items[0]).value;
      var rest := DecodeEvents(d, items[1..]).value;
      assert DecodeEvents(d, items).value == [first] + rest;
      assert ([first] + rest)[1..] == rest;
    }
  }

  /** End to end: rendering what `from_events` decoded gives one header
      line, one line per raw event and, when verbose, one line per field
      metadata entry. */
  lemma {:induction false} DecodedLineCount(d: Decoders, items: seq<Result<EventDetails>>, verbose: bool, show: ValueDisplay, format: BalanceFormatter)
    requires d.Valid() && DecodeEvents(d, items).Ok?
    requires Render(DisplayEvents(DecodeEvents(d, items).value), verbose, show, format).Ok?
    ensures |Render(DisplayEvents(DecodeEvents(d, items).value), verbose, show, format).value|
      == 1 + |items| + (if verbose then MetadataEntries(items) else 0)
  {
    DecodeEventsInOrder(d, items);
    DecodedFieldCount(d, items);
  }
}
