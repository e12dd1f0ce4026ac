/** `DisplayEvents::display_events`: the human-readable rendering of decoded
    events. The output text is modelled as its sequence of lines; colouring
    and column padding are presentation and are not modelled. */
module Display {
  import opened Common
  import opened Transcode
  import opened Events

  /** One line of the rendered output: the "Events" header, the line that
      introduces an event, or a field line (shown in verbose mode only). */
  datatype Line =
    | Header
    | EventLine(pallet: string, name: string)
    | FieldLine(name: string, value: string)

  /** `Value`'s `Display` implementation, which is part of `contract_transcode`. */
  type ValueDisplay = Value -> string

  /** `BalanceVariant::from(balance, Some(token_metadata))` followed by
      `to_string`, with the token metadata of the call fixed. It can fail,
      and its error ends the rendering. */
  type BalanceFormatter = u128 -> Result<string>

  /** The two type names whose unsigned values are shown as balances. */
  predicate IsBalanceTypeName(typeName: Option<string>) {
    typeName == Some("T::Balance") || typeName == Some("BalanceOf<T>")
  }

  /** Whether the balance formatter is consulted for this field. */
  predicate ShowsAsBalance(f: Field) {
    IsBalanceTypeName(f.typeName) && f.value.UInt?
  }

  /** The value text of a field line: the formatted balance for a
      balance-typed unsigned value, the generic rendering otherwise. */
  predicate RendersValue(f: Field, value: string, show: ValueDisplay, format: BalanceFormatter) {
    && (ShowsAsBalance(f) ==> format(f.value.n) == Ok(value))
    && (!ShowsAsBalance(f) ==> value == show(f.value))
  }

  /** The text after a field's name: the value's generic rendering, replaced
      by the formatted balance for a balance-typed unsigned value. Only the
      balance formatter can make it fail. */
  function FieldValueText(f: Field, show: ValueDisplay, format: BalanceFormatter): (r: Result<string>)
    ensures r.Err? <==> ShowsAsBalance(f) && format(f.value.n).Err?
    ensures r.Err? ==> r.error == format(f.value.n).error
    ensures r.Ok? ==> RendersValue(f, r.value, show, format)
  {
    var value := show(f.value);
    if IsBalanceTypeName(f.typeName) && f.value.UInt? then
      format(f.value.n)
    else
      Ok(value)
  }

  /** Sequences two fallible pieces of output; the first error wins. */
  function Then<T>(first: Result<seq<T>>, second: Result<seq<T>>): Result<seq<T>> {
    match first
    case Err(e) => Err(e)
    case Ok(xs) => Prepend(xs, second)
  }

  lemma ThenPrepend<T>(xs: seq<T>, r1: Result<seq<T>>, r2: Result<seq<T>>)
    ensures Then(Prepend(xs, r1), r2) == Prepend(xs, Then(r1, r2))
  {
    match r1
    case Ok(ys) =>
      if r2.Ok? {
        assert (xs + ys) + r2.value == xs + (ys + r2.value);
      }
    case Err(_) =>
  }

  /** The field lines of one event, in field order. */
  function FieldLines(fields: seq<Field>, show: ValueDisplay, format: BalanceFormatter): (r: Result<seq<Line>>)
    ensures r.Ok? ==> |r.value| == |fields|
  {
    if fields == [] then Ok([])
    else
      match FieldValueText(fields[0], show, format)
      case Err(e) => Err(e)
      case Ok(value) => Prepend([FieldLine(fields[0].name, value)], FieldLines(fields[1..], show, format))
  }

  /** The field lines of one event as the verbosity selects them: all of
      them when verbose, none otherwise. */
  function ShownFieldLines(fields: seq<Field>, verbose: bool, show: ValueDisplay, format: BalanceFormatter): (r: Result<seq<Line>>)
    ensures r.Ok? ==> |r.value| == if verbose then |fields| else 0
  {
    if verbose then FieldLines(fields, show, format) else Ok([])
  }

  /** The lines of one event: its event line, then its field lines when
      verbose. */
  function EventBlock(event: Event, verbose: bool, show: ValueDisplay, format: BalanceFormatter): (r: Result<seq<Line>>)
    ensures r.Ok? ==> |r.value| == 1 + (if verbose then |event.fields| else 0)
  {
    Prepend([EventLine(event.pallet, event.name)], ShownFieldLines(event.fields, verbose, show, format))
  }

  /** Number of fields of all events together. */
  function TotalFields(events: seq<Event>): nat {
    if events == [] then 0 else |events[0].fields| + TotalFields(events[1..])
  }

  /** The lines of all events, in order. */
  function EventLines(events: seq<Event>, verbose: bool, show: ValueDisplay, format: BalanceFormatter): (r: Result<seq<Line>>)
    ensures r.Ok? ==> |r.value| == |events| + (if verbose then TotalFields(events) else 0)
  {
    if events == [] then Ok([])
    else Then(EventBlock(events[0], verbose, show, format), EventLines(events[1..], verbose, show, format))
  }

  /** The whole output: the header line, then the lines of every event.
      One line per event, plus one per field when verbose. */
  function Render(d: DisplayEvents, verbose: bool, show: ValueDisplay, format: BalanceFormatter): (r: Result<seq<Line>>)
    ensures r.Ok? ==> |r.value| == 1 + |d.events| + (if verbose then TotalFields(d.events) else 0)
  {
    Prepend([Header], EventLines(d.events, verbose, show, format))
  }

  /** `display_events`: appends the header, then for each event its event
      line and, in verbose mode, one line per field, the balance formatter's
      error aborting the rendering. */
  method DisplayEventsLines(d: DisplayEvents, verbose: bool, show: ValueDisplay, format: BalanceFormatter)
    returns (r: Result<seq<Line>>)
    ensures r == Render(d, verbose, show, format)
  {
    var out := [Header];
    var i := 0;
    assert d.events[i..] == d.events;
    while i < |d.events|
      invariant 0 <= i <= |d.events|
      invariant Render(d, verbose, show, format) == Prepend(out, EventLines(d.events[i..], verbose, show, format))
    {
      var event := d.events[i];
      ghost var later := EventLines(d.events[i + 1..], verbose, show, format);
      ghost var fieldsPart := ShownFieldLines(event.fields, verbose, show, format);
      assert d.events[i..][1..] == d.events[i + 1..];
      ThenPrepend([EventLine(event.pallet, event.name)], fieldsPart, later);
      PrependTwice(out, [EventLine(event.pallet, event.name)], Then(fieldsPart, later));
      out := out + [EventLine(event.pallet, event.name)];
      var j := 0;
      assert event.fields[j..] == event.fields;
      while j < |event.fields|
        invariant 0 <= j <= |event.fields|
        invariant Render(d, verbose, show, format)
          == Prepend(out, Then(ShownFieldLines(event.fields[j..], verbose, show, format), later))
      {
        var field := event.fields[j];
        assert event.fields[j..][1..] == event.fields[j + 1..];
        if verbose {
          var value := show(field.value);
          if IsBalanceTypeName(field.typeName) {
            if field.value.UInt? {
              var formatted := format(field.value.n);
              if formatted.Err? {
                return Err(formatted.error);
              }
              value := formatted.value;
            }
          }
          ghost var rest := FieldLines(event.fields[j + 1..], show, format);
          assert FieldLines(event.fields[j..], show, format) == Prepend([FieldLine(field.name, value)], rest);
          ThenPrepend([FieldLine(field.name, value)], rest, later);
          PrependTwice(out, [FieldLine(field.name, value)], Then(rest, later));
          out := out + [FieldLine(field.name, value)];
        }
        j := j + 1;
      }
      assert Then(ShownFieldLines(event.fields[j..], verbose, show, format), later) == later by {
        assert event.fields[j..] == [];
        PrependNothing(later);
      }
      i := i + 1;
    }
    assert EventLines(d.events[i..], verbose, show, format) == Ok([]) by {
      assert d.events[i..] == [];
    }
    assert out + [] == out;
    r := Ok(out);
  }
}
