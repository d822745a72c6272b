/**
 * The creatable combo box used for categories, companies and payment types:
 * a text input whose dropdown lists the options matching the typed text,
 * followed by a `Create "<text>"` entry when the text names no existing option.
 * The parent keeps the selected `value` and stores whatever `onChange` emits.
 */
module CreatableSelect {
  import opened Seqs
  import opened Strings

  /** The text in front of a typed term in the create entry. */
  const CreatePrefix: string := "Create \""

  /** The filter's test: the lower-cased option contains the lower-cased text. */
  predicate OptionMatches(option: string, term: string) {
    Contains(Lower(option), Lower(term))
  }

  function MatchesTerm(term: string): string -> bool {
    (o: string) => OptionMatches(o, term)
  }

  /** `filteredOptions`: the options containing the typed text, ignoring case, in their order. */
  function FilteredOptions(options: seq<string>, term: string): (r: seq<string>)
    ensures IsSubseq(r, options)
    ensures forall o :: o in r <==> o in options && OptionMatches(o, term)
    ensures forall o :: multiset(r)[o] == if OptionMatches(o, term) then multiset(options)[o] else 0
  {
    FilterMultiset(options, MatchesTerm(term));
    Filter(options, MatchesTerm(term))
  }

  /** Some option equals the typed text once both are lower-cased: `options.some(...)`. */
  predicate HasCaseEqual(options: seq<string>, term: string) {
    exists i :: 0 <= i < |options| && Lower(options[i]) == Lower(term)
  }

  /** `showCreateOption`: the trimmed text is not empty and no option equals it ignoring case. */
  predicate ShowCreateOption(options: seq<string>, term: string) {
    Trim(term) != "" && !HasCaseEqual(options, term)
  }

  /** The create entry is offered exactly for a text that is not all white space and names no option. */
  lemma ShowCreateOptionIff(options: seq<string>, term: string)
    ensures ShowCreateOption(options, term) <==>
            !IsBlank(term) && forall i :: 0 <= i < |options| ==> Lower(options[i]) != Lower(term)
  {
    TrimEmptyIffBlank(term);
  }

  /** The create entry: `Create "${searchTerm}"`. */
  function CreateLabel(term: string): (r: string)
    ensures StartsWith(r, CreatePrefix)
    ensures |r| == |term| + 9 && r[8..|r| - 1] == term && r[|r| - 1] == '"'
  {
    CreatePrefix + term + "\""
  }

  /** `displayOptions`: the filtered options, then the create entry when it is offered. */
  function DisplayOptions(options: seq<string>, term: string): (r: seq<string>)
    ensures |r| == |FilteredOptions(options, term)| + (if ShowCreateOption(options, term) then 1 else 0)
    ensures r[..|FilteredOptions(options, term)|] == FilteredOptions(options, term)
    ensures ShowCreateOption(options, term) ==> r[|r| - 1] == CreateLabel(term)
  {
    var filtered := FilteredOptions(options, term);
    if ShowCreateOption(options, term) then
      var r := filtered + [CreateLabel(term)];
      assert r[..|filtered|] == filtered;
      r
    else filtered
  }

  /**
   * Whenever the typed text is not blank the dropdown has something to show:
   * either the create entry, or an option equal to the text, which the filter keeps.
   */
  lemma DisplayOptionsNonEmpty(options: seq<string>, term: string)
    requires !IsBlank(term)
    ensures |DisplayOptions(options, term)| > 0
  {
    TrimEmptyIffBlank(term);
    if !ShowCreateOption(options, term) {
      var i :| 0 <= i < |options| && Lower(options[i]) == Lower(term);
      ContainsSelf(Lower(term));
      assert options[i] in FilteredOptions(options, term);
    }
  }

  /** What `handleOptionClick` passes to `onChange`: the typed text for a create entry, else the option. */
  function OptionValue(option: string): string {
    if StartsWith(option, CreatePrefix) then JsSlice(option, 8, -1) else option
  }

  /** `slice(8, -1)` undoes the create entry's construction. */
  lemma CreateRoundTrip(term: string)
    ensures OptionValue(CreateLabel(term)) == term
  {
    var entry := CreateLabel(term);
    assert JsSlice(entry, 8, -1) == entry[8..|entry| - 1];
  }

  /**
   * Clicking a displayed entry emits either the typed text (the create entry) or
   * the option itself, unless that option's own text begins with `Create "`.
   */
  lemma DisplayedOptionValue(options: seq<string>, term: string, option: string)
    requires option in DisplayOptions(options, term)
    requires !(option in options && StartsWith(option, CreatePrefix))
    ensures || (option in options && OptionValue(option) == option)
            || (option == CreateLabel(term) && OptionValue(option) == term)
  {
    var filtered := FilteredOptions(options, term);
    var r := DisplayOptions(options, term);
    var k :| 0 <= k < |r| && r[k] == option;
    if k < |filtered| {
      assert r[..|filtered|][k] == option;
      assert option in filtered;
    } else {
      CreateRoundTrip(term);
    }
  }

  /** An existing option written like a create entry is emitted without its wrapper. */
  lemma WrappedOptionIsUnwrapped()
    ensures OptionValue("Create \"Rent\"") == "Rent"
  {
    CreateRoundTrip("Rent");
  }

  /** A plain option is emitted as it is. */
  lemma PlainOptionValue(option: string)
    requires !StartsWith(option, CreatePrefix)
    ensures OptionValue(option) == option
  {
  }

  /** What the input shows: `value || searchTerm`. */
  function DisplayValue(value: string, searchTerm: string): (r: string)
    ensures value != "" ==> r == value
    ensures value == "" ==> r == searchTerm
    ensures r == "" <==> value == "" && searchTerm == ""
  {
    if value != "" then value else searchTerm
  }

  /** The combo box's own state, with the parent's `value` that `onChange` writes. */
  class ComboBox {
    var value: string
    var options: seq<string>
    var searchTerm: string
    var isOpen: bool

    constructor (value: string, options: seq<string>)
      ensures this.value == value && this.options == options
      ensures searchTerm == "" && !isOpen
    {
      this.value := value;
      this.options := options;
      searchTerm := "";
      isOpen := false;
    }

    function Shown(): string
      reads this
    {
      DisplayValue(value, searchTerm)
    }

    /** The clear button is rendered when a value is set and the dropdown is closed. */
    predicate ClearButtonShown()
      reads this
    {
      value != "" && !isOpen
    }

    /** The dropdown is rendered when open and there is at least one entry. */
    predicate DropdownShown()
      reads this
    {
      isOpen && |DisplayOptions(options, searchTerm)| > 0
    }

    /** Typing: the text becomes the search term and the dropdown opens; the value is untouched. */
    method Type(text: string)
      modifies this
      ensures searchTerm == text && isOpen
      ensures value == old(value) && options == old(options)
      ensures !IsBlank(text) ==> DropdownShown()
      ensures old(value) != "" ==> Shown() == old(value)
    {
      searchTerm := text;
      isOpen := true;
      if !IsBlank(text) {
        DisplayOptionsNonEmpty(options, text);
      }
    }

    /** Focus: the dropdown opens, and a set value is copied into the search term. */
    method Focus()
      modifies this
      ensures isOpen
      ensures searchTerm == if old(value) != "" then old(value) else old(searchTerm)
      ensures value == old(value) && options == old(options)
      ensures Shown() == old(Shown())
    {
      isOpen := true;
      if value != "" {
        searchTerm := value;
      }
    }

    /** `handleOptionClick`: emits the option's value, clears the search and closes the dropdown. */
    method ClickOption(option: string) returns (emitted: string)
      modifies this
      ensures emitted == OptionValue(option)
      ensures value == emitted && searchTerm == "" && !isOpen
      ensures options == old(options)
      ensures option == CreateLabel(old(searchTerm)) ==> value == old(searchTerm)
    {
      if StartsWith(option, CreatePrefix) {
        emitted := JsSlice(option, 8, -1);
      } else {
        emitted := option;
      }
      if option == CreateLabel(searchTerm) {
        CreateRoundTrip(searchTerm);
      }
      value := emitted;
      searchTerm := "";
      isOpen := false;
    }

    /** The clear button, rendered only while it is shown: emits `''` and empties the search term. */
    method Clear() returns (emitted: string)
      requires ClearButtonShown()
      modifies this
      ensures emitted == "" && value == "" && searchTerm == ""
      ensures isOpen == old(isOpen) && options == old(options)
      ensures Shown() == ""
    {
      emitted := "";
      value := emitted;
      searchTerm := "";
    }

    /** A mouse-down outside the box closes it, and drops the search term when a value is set. */
    method ClickOutside()
      modifies this
      ensures !isOpen
      ensures searchTerm == if old(value) != "" then "" else old(searchTerm)
      ensures value == old(value) && options == old(options)
      ensures Shown() == old(Shown())
    {
      isOpen := false;
      if value != "" {
        searchTerm := "";
      }
    }
  }

  /**
   * Creating an entry from scratch: typing a new name and clicking the create
   * entry hands exactly that name to the parent.
   */
  method TypeAndCreate(options: seq<string>, name: string) returns (chosen: string)
    requires !IsBlank(name)
    requires forall i :: 0 <= i < |options| ==> Lower(options[i]) != Lower(name)
    ensures chosen == name
  {
    var box := new ComboBox("", options);
    box.Type(name);
    ShowCreateOptionIff(options, name);
    var shown := DisplayOptions(options, name);
    assert shown[|shown| - 1] == CreateLabel(name);
    chosen := box.ClickOption(shown[|shown| - 1]);
  }
}
