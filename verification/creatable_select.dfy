/** The searchable select that can also create a new option from the typed text. */
module CreatableSelect {
  import opened Values
  import opened Text
  import opened Seqs
  import opened TicketForm

  function LabelMatches(search: string): Choice -> bool {
    (o: Choice) => ContainsIgnoringCase(o.labelText, search)
  }

  /**
   * The options listed under the search box: all of them for an empty search,
   * otherwise those whose label includes the search ignoring case, in order.
   */
  function FilteredOptions(options: seq<Choice>, search: string): (r: seq<Choice>)
    ensures search == "" ==> r == options
    ensures search != "" ==> forall o :: o in r <==> o in options && ContainsIgnoringCase(o.labelText, search)
    ensures IsSubsequence(r, options)
    ensures search != "" ==> |r| == CountIf(options, LabelMatches(search))
  {
    if search == "" then
      SubsequenceRefl(options);
      options
    else Filter(options, LabelMatches(search))
  }

  predicate SameIgnoringCase(a: string, b: string) {
    ToLower(a) == ToLower(b)
  }

  /** The "create" entry: a non-empty search that no listed label equals ignoring case. */
  function ShowCreateOption(options: seq<Choice>, search: string): (r: bool)
    ensures r <==> search != "" && forall o :: o in FilteredOptions(options, search) ==> !SameIgnoringCase(o.labelText, search)
  {
    search != "" && forall o :: o in FilteredOptions(options, search) ==> !SameIgnoringCase(o.labelText, search)
  }

  /** A string includes itself. */
  lemma ContainsSelf(s: string)
    ensures Contains(s, s)
  {
    assert s <= s[0..];
  }

  /**
   * Filtering never hides an exact match, so the create entry appears iff the search
   * is non-empty and no option at all carries that label ignoring case.
   */
  lemma ShowCreateIffNoOptionEqual(options: seq<Choice>, search: string)
    ensures ShowCreateOption(options, search) <==>
      search != "" && forall o :: o in options ==> !SameIgnoringCase(o.labelText, search)
  {
    if search != "" {
      forall o | o in options && SameIgnoringCase(o.labelText, search)
        ensures o in FilteredOptions(options, search)
      {
        ContainsSelf(ToLower(search));
      }
    }
  }

  /**
   * The trigger text: the placeholder when no value is set; otherwise the label of
   * the first option carrying that value, or the raw value when there is none or its
   * label is empty.
   */
  function TriggerLabel(options: seq<Choice>, value: Nullable, placeholder: string): (r: string)
    ensures !Truthy(value) ==> r == placeholder
    ensures Truthy(value) && !HasValue(options, value.value) ==> r == value.value
    ensures Truthy(value) && HasValue(options, value.value) ==>
      exists i :: 0 <= i < |options| && options[i].value == value.value
        && (forall j :: 0 <= j < i ==> options[j].value != value.value)
        && r == (if options[i].labelText != "" then options[i].labelText else value.value)
  {
    if !Truthy(value) then placeholder
    else match FindValue(options, value.value)
      case None => value.value
      case Some(i) => if options[i].labelText != "" then options[i].labelText else value.value
  }

  /** `options.find(o => o.value === v)`, as the index of the first hit. */
  function FindValue(options: seq<Choice>, v: string): (r: Option<nat>)
    ensures r.None? <==> !HasValue(options, v)
    ensures r.Some? ==>
      && r.value < |options|
      && options[r.value].value == v
      && forall j :: 0 <= j < r.value ==> options[j].value != v
  {
    if options == [] then None
    else if options[0].value == v then Some(0)
    else match FindValue(options[1..], v)
      case None =>
        assert forall c :: c in options ==> c == options[0] || c in options[1..];
        None
      case Some(i) => Some(i + 1)
  }

  /** The popover state. The search text survives a selection. */
  datatype Select = Select(open: bool, search: string)

  datatype Pick = Existing(option: Choice) | CreateNew

  datatype Selected = Selected(emitted: string, state: Select)

  /**
   * `handleSelect`: clicking an option emits its value; clicking the create entry
   * emits the raw search string. Either way the popover closes.
   */
  function HandleSelect(s: Select, pick: Pick): (r: Selected)
    ensures pick.Existing? ==> r.emitted == pick.option.value
    ensures pick.CreateNew? ==> r.emitted == s.search
    ensures !r.state.open && r.state.search == s.search
  {
    match pick
    case Existing(o) => Selected(o.value, s.(open := false))
    case CreateNew => Selected(s.search, s.(open := false))
  }

  /** Once a created value is among the options, no create entry is offered for it again. */
  lemma CreatedValueNotOfferedAgain(options: seq<Choice>, search: string)
    requires search != ""
    ensures !ShowCreateOption(options + [Choice(search, search)], search)
  {
    var opts := options + [Choice(search, search)];
    assert opts[|opts| - 1] in opts;
    ShowCreateIffNoOptionEqual(opts, search);
  }

  /**
   * Picking an existing option makes the trigger show that option's label (its
   * value when the label is empty), provided no two options share a value.
   */
  lemma PickThenTriggerShows(options: seq<Choice>, s: Select, k: nat, placeholder: string)
    requires k < |options| && options[k].value != ""
    requires DistinctValues(options)
    ensures var shown := TriggerLabel(options, Some(HandleSelect(s, Existing(options[k])).emitted), placeholder);
      shown == if options[k].labelText != "" then options[k].labelText else options[k].value
  {
    var v := options[k].value;
    assert HasValue(options, v) by { assert options[k] in options; }
  }

  /**
   * Picking the create entry, once the form appends the new value as an option of
   * its own, makes the trigger show the typed text.
   */
  lemma CreateThenTriggerShows(options: seq<Choice>, s: Select, placeholder: string)
    requires s.search != "" && !HasValue(options, s.search)
    ensures var opts := options + [Choice(s.search, s.search)];
      TriggerLabel(opts, Some(HandleSelect(s, CreateNew).emitted), placeholder) == s.search
  {
    var opts := options + [Choice(s.search, s.search)];
    assert opts[|opts| - 1] in opts;
  }
}
