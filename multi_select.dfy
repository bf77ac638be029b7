/** The multiple-choice select of the admin forms (src/components/UI/MultiSelect.jsx):
    the chosen values as strings, the options shown for them and for the
    search text, and the change event emitted by toggling or removing one. */
module MultiSelect {
  import opened Js
  import opened Text
  import opened Seqs

  /** An entry of the `options` prop; the caption is its `label`. */
  datatype Choice = Choice(value: Value, caption: Value)

  /** An entry of the emitted `selectedOptions`. */
  datatype Emitted = Emitted(value: string, text: Value, selected: bool)

  /** `selectedValues`: the `value` prop mapped to strings, [] unless it is an array. */
  function SelectedValues(value: Value): (r: seq<string>)
    ensures !value.Arr? ==> r == []
    ensures value.Arr? ==> |r| == |value.items| && forall i :: 0 <= i < |r| ==> r[i] == ToStr(value.items[i])
  {
    if value.Arr? then Map(value.items, ToStr) else []
  }

  predicate IsSelected(selected: seq<string>, c: Choice) {
    ToStr(c.value) in selected
  }

  function SelectedIn(selected: seq<string>): Choice -> bool {
    c => IsSelected(selected, c)
  }

  /** `selectedOptions`: the options whose value, as a string, is chosen, in options order. */
  function SelectedOptions(options: seq<Choice>, selected: seq<string>): (r: seq<Choice>)
    ensures r == Filter(options, SelectedIn(selected))
    ensures forall c :: c in r <==> c in options && ToStr(c.value) in selected
  {
    var r := Filter(options, SelectedIn(selected));
    assert forall c :: c in r <==> c in options && IsSelected(selected, c) by {
      forall c ensures c in r <==> c in options && IsSelected(selected, c) {
        FilterMember(options, SelectedIn(selected), c);
      }
    }
    r
  }

  /** `opt.label.toLowerCase().includes(search.toLowerCase())`: only strings have `toLowerCase`. */
  function LabelMatches(search: string, c: Choice): (r: Result<bool>)
    ensures r.TypeError? <==> !c.caption.Str?
    ensures r.Ok? ==> (r.value <==> Contains(Lower(c.caption.s), Lower(search)))
  {
    if c.caption.Str? then Ok(Contains(Lower(c.caption.s), Lower(search))) else TypeError
  }

  function LabelMatcher(search: string): Choice -> Result<bool> {
    c => LabelMatches(search, c)
  }

  /** `filteredOptions`: the options whose lower-case label holds the lower-case search. */
  function FilteredOptions(options: seq<Choice>, search: string): (r: Result<seq<Choice>>)
    ensures r.Ok? <==> forall i :: 0 <= i < |options| ==> options[i].caption.Str?
    ensures r.Ok? ==> r.value == Filter(options, Kept(LabelMatcher(search)))
  {
    FilterResult(options, LabelMatcher(search))
  }

  /** With the search empty every option is shown. */
  lemma EmptySearchKeepsAll(options: seq<Choice>)
    requires forall i :: 0 <= i < |options| ==> options[i].caption.Str?
    ensures FilteredOptions(options, "") == Ok(options)
  {
    forall i | 0 <= i < |options|
      ensures Kept(LabelMatcher(""))(options[i])
    {
      ContainsEmpty(Lower(options[i].caption.s));
    }
    FilterAll(options, Kept(LabelMatcher("")));
  }

  function Other(v: string): string -> bool {
    x => x != v
  }

  /** `handleToggle`'s new values: a chosen value is removed everywhere, another is appended. */
  function Toggled(selected: seq<string>, optionValue: Value): (r: seq<string>)
    ensures ToStr(optionValue) in selected ==> r == Filter(selected, Other(ToStr(optionValue)))
    ensures ToStr(optionValue) in selected ==> ToStr(optionValue) !in r && |r| < |selected|
    ensures ToStr(optionValue) !in selected ==> r == selected + [ToStr(optionValue)]
    ensures forall v :: v != ToStr(optionValue) ==> (v in r <==> v in selected)
  {
    var v := ToStr(optionValue);
    if v in selected then Removed(selected, optionValue) else selected + [v]
  }

  /** `handleRemove`'s new values: the chosen list without the value. */
  function Removed(selected: seq<string>, optionValue: Value): (r: seq<string>)
    ensures r == Filter(selected, Other(ToStr(optionValue)))
    ensures ToStr(optionValue) !in r
    ensures forall v :: v != ToStr(optionValue) ==> (v in r <==> v in selected)
    ensures ToStr(optionValue) in selected ==> |r| < |selected|
  {
    var v := ToStr(optionValue);
    RemovedFacts(selected, v);
    Filter(selected, Other(v))
  }

  lemma RemovedFacts(selected: seq<string>, v: string)
    ensures forall x :: x in Filter(selected, Other(v)) <==> x in selected && x != v
    ensures v in selected ==> |Filter(selected, Other(v))| < |selected|
  {
    forall x ensures x in Filter(selected, Other(v)) <==> x in selected && x != v {
      FilterMember(selected, Other(v), x);
    }
    if v in selected {
      var i :| 0 <= i < |selected| && selected[i] == v;
      FilterDropsOne(selected, Other(v), i);
    }
  }

  /** Filtering out an element the predicate refuses shortens the list. */
  lemma {:induction false} FilterDropsOne<T>(s: seq<T>, p: T -> bool, i: nat)
    requires i < |s| && !p(s[i])
    ensures |Filter(s, p)| < |s|
  {
    if i == 0 {
      assert |Filter(s[1..], p)| <= |s[1..]|;
    } else {
      FilterDropsOne(s[1..], p, i - 1);
    }
  }

  /** Removing a value that is not chosen changes nothing. */
  lemma RemoveUnselectedIsIdentity(selected: seq<string>, optionValue: Value)
    requires ToStr(optionValue) !in selected
    ensures Removed(selected, optionValue) == selected
  {
    FilterAll(selected, Other(ToStr(optionValue)));
  }

  /** Toggling a value that is not chosen twice gives the list back. */
  lemma ToggleTwiceRestores(selected: seq<string>, optionValue: Value)
    requires ToStr(optionValue) !in selected
    ensures Toggled(Toggled(selected, optionValue), optionValue) == selected
  {
    var v := ToStr(optionValue);
    FilterAppend(selected, [v], Other(v));
    FilterAll(selected, Other(v));
  }

  /** `options.find(o => String(o.value) === val)` */
  function FindOption(options: seq<Choice>, val: string): (r: Option<Choice>)
    ensures r.Some? ==> r.value in options && ToStr(r.value.value) == val
    ensures r.None? <==> forall i :: 0 <= i < |options| ==> ToStr(options[i].value) != val
    ensures r.Some? ==>
              exists i :: 0 <= i < |options| && options[i] == r.value &&
                (forall j :: 0 <= j < i ==> ToStr(options[j].value) != val)
  {
    if options == [] then None
    else if ToStr(options[0].value) == val then Some(options[0])
    else
      var r := FindOption(options[1..], val);
      assert forall j :: 1 <= j < |options| ==> options[j] == options[1..][j - 1];
      r
  }

  /** One emitted entry: the value, the matching option's label or the value itself, selected. */
  function EmittedFor(options: seq<Choice>, val: string): Emitted {
    var opt := FindOption(options, val);
    Emitted(val, Or(if opt.Some? then opt.value.caption else Undefined, Str(val)), true)
  }

  /** The text shown for a chosen value: the first matching option's label
      when it is truthy, else the value itself. */
  function TextFor(options: seq<Choice>, val: string): Value {
    var opt := FindOption(options, val);
    if opt.Some? && Truthy(opt.value.caption) then opt.value.caption else Str(val)
  }

  /** The `selectedOptions` passed to `onChange`. */
  function EmittedOptions(options: seq<Choice>, values: seq<string>): (r: seq<Emitted>)
    ensures |r| == |values|
    ensures forall i :: 0 <= i < |values| ==> r[i] == Emitted(values[i], TextFor(options, values[i]), true)
    ensures forall i :: 0 <= i < |values| ==>
              (forall j :: 0 <= j < |options| ==> ToStr(options[j].value) != values[i]) ==> r[i].text == Str(values[i])
  {
    Map(values, val => EmittedFor(options, val))
  }

  /** `handleToggle(optionValue)`: the event for the toggled list. */
  function HandleToggle(options: seq<Choice>, value: Value, optionValue: Value): (r: seq<Emitted>)
    ensures |r| == |Toggled(SelectedValues(value), optionValue)|
    ensures forall i :: 0 <= i < |r| ==>
              var v := Toggled(SelectedValues(value), optionValue)[i];
              r[i] == Emitted(v, TextFor(options, v), true)
  {
    EmittedOptions(options, Toggled(SelectedValues(value), optionValue))
  }

  /** `handleRemove(optionValue)`: the event for the list without the value. */
  function HandleRemove(options: seq<Choice>, value: Value, optionValue: Value): (r: seq<Emitted>)
    ensures |r| == |Removed(SelectedValues(value), optionValue)|
    ensures forall i :: 0 <= i < |r| ==>
              var v := Removed(SelectedValues(value), optionValue)[i];
              r[i] == Emitted(v, TextFor(options, v), true) && v != ToStr(optionValue)
  {
    var values := Removed(SelectedValues(value), optionValue);
    assert forall i :: 0 <= i < |values| ==> values[i] in values;
    EmittedOptions(options, values)
  }

  /** Toggling an option that is not chosen makes it one of the selected options. */
  lemma ToggleSelectsOption(options: seq<Choice>, selected: seq<string>, c: Choice)
    requires c in options && ToStr(c.value) !in selected
    ensures c in SelectedOptions(options, Toggled(selected, c.value))
  {
    assert ToStr(c.value) in Toggled(selected, c.value);
  }

  /** Removing an option's value leaves none of the options with that value selected. */
  lemma RemoveDeselectsOption(options: seq<Choice>, selected: seq<string>, c: Choice)
    ensures forall d :: d in SelectedOptions(options, Removed(selected, c.value)) ==> ToStr(d.value) != ToStr(c.value)
  {
  }
}
