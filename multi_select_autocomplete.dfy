/** The multi-select autocomplete used for authorities and information systems: the
    suggestions for the typed text (excluding what is already selected), the selected
    list with its no-duplicate add and remove-all, and the clamped keyboard focus. */
module MultiSelectAutocomplete {
  import opened Wrappers
  import opened Seqs
  import opened Text

  datatype SelectOption = SelectOption(id: string, labelText: string, description: Option<string>)

  /** The label contains the typed text case-insensitively, the option is not yet
      selected, and the text is long enough. */
  predicate Suggestible(o: SelectOption, inputValue: string, selectedValues: seq<string>, minInputLength: nat) {
    && Contains(Lower(o.labelText), Lower(inputValue))
    && o.id !in selectedValues
    && |inputValue| >= minInputLength
  }

  function SuggestibleSelector(inputValue: string, selectedValues: seq<string>, minInputLength: nat): SelectOption -> bool {
    (o: SelectOption) => Suggestible(o, inputValue, selectedValues, minInputLength)
  }

  /** All suggestible options, before the cap. */
  function Candidates(inputValue: string, options: seq<SelectOption>, selectedValues: seq<string>, minInputLength: nat)
    : seq<SelectOption>
  {
    Filter(options, SuggestibleSelector(inputValue, selectedValues, minInputLength))
  }

  /** `filteredOptions`: the first `maxSuggestions` suggestible options, in option
      order. */
  function FilteredOptions(inputValue: string, options: seq<SelectOption>, selectedValues: seq<string>,
                           maxSuggestions: nat, minInputLength: nat): (r: seq<SelectOption>)
    ensures |inputValue| < minInputLength ==> r == []
    ensures |r| <= maxSuggestions
    ensures IsSubsequence(r, options)
    ensures forall i :: 0 <= i < |r| ==>
      Contains(Lower(r[i].labelText), Lower(inputValue)) && r[i].id !in selectedValues
    ensures var m := Candidates(inputValue, options, selectedValues, minInputLength);
      |r| == if |m| <= maxSuggestions then |m| else maxSuggestions
    ensures r == Candidates(inputValue, options, selectedValues, minInputLength)[..|r|]
  {
    var m := Candidates(inputValue, options, selectedValues, minInputLength);
    FilterIsSubsequence(options, SuggestibleSelector(inputValue, selectedValues, minInputLength));
    SubsequencePrefix(m, options, |Take(m, maxSuggestions)|);
    assert Take(m, maxSuggestions) == m[..|Take(m, maxSuggestions)|];
    assert forall i :: 0 <= i < |Take(m, maxSuggestions)| ==> Take(m, maxSuggestions)[i] in m;
    assert |inputValue| < minInputLength ==> m == [] by {
      if m != [] {
        assert m[0] in m;
      }
    }
    Take(m, maxSuggestions)
  }

  /** Deselecting can only lengthen the suggestion list: an option excluded before
      may now be suggested, and none that was suggested is excluded. */
  lemma {:induction false} FewerSelectedMoreSuggestions(inputValue: string, options: seq<SelectOption>,
                                                        bigger: seq<string>, smaller: seq<string>,
                                                        maxSuggestions: nat, minInputLength: nat)
    requires forall v :: v in smaller ==> v in bigger
    ensures |FilteredOptions(inputValue, options, bigger, maxSuggestions, minInputLength)|
      <= |FilteredOptions(inputValue, options, smaller, maxSuggestions, minInputLength)|
  {
    FilterMonotone(options, SuggestibleSelector(inputValue, bigger, minInputLength),
                   SuggestibleSelector(inputValue, smaller, minInputLength));
  }

  /** `selectedOptions`: the options whose id is selected, in option order. */
  function SelectedOptions(options: seq<SelectOption>, selectedValues: seq<string>): (r: seq<SelectOption>)
    ensures IsSubsequence(r, options)
    ensures forall o :: o in r <==> o in options && o.id in selectedValues
  {
    var sel := (o: SelectOption) => o.id in selectedValues;
    FilterIsSubsequence(options, sel);
    forall o ensures o in Filter(options, sel) <==> o in options && o.id in selectedValues {
      FilterMember(options, sel, o);
    }
    Filter(options, sel)
  }

  /** `handleSelectOption`'s update of the selection: the id is appended only when
      it is not already there. */
  function AddUnique(selectedValues: seq<string>, id: string): (r: seq<string>)
    ensures id in r
    ensures forall v :: v in r <==> v in selectedValues || v == id
    ensures |selectedValues| <= |r| <= |selectedValues| + 1 && r[..|selectedValues|] == selectedValues
    ensures Distinct(selectedValues) ==> Distinct(r)
  {
    if id in selectedValues then selectedValues else selectedValues + [id]
  }

  /** Adding a selected id again changes nothing. */
  lemma AddUniqueIdempotent(selectedValues: seq<string>, id: string)
    ensures AddUnique(AddUnique(selectedValues, id), id) == AddUnique(selectedValues, id)
  {
  }

  /** Selecting an id that was not selected and then removing it restores the list. */
  lemma {:induction false} SelectThenRemove(selectedValues: seq<string>, id: string)
    requires id !in selectedValues
    ensures Remove(AddUnique(selectedValues, id), id) == selectedValues
  {
    AppendThenRemove(selectedValues, id);
  }

  datatype Key = ArrowDown | ArrowUp | Enter | Escape | OtherKey

  /** ArrowDown while open: one down, stopping at the last option. */
  function FocusDown(i: int, n: nat): (r: int)
    ensures r == i || r == i + 1
    ensures -1 <= i < n - 1 ==> r == i + 1
    ensures i >= n - 1 ==> r == i
  {
    if i < n - 1 then i + 1 else i
  }

  /** ArrowUp while open: one up, stopping at no focus (-1). */
  function FocusUp(i: int): (r: int)
    ensures i > 0 ==> r == i - 1
    ensures i <= 0 ==> r == -1
  {
    if i > 0 then i - 1 else -1
  }

  /** The focus stays in `[-1, n - 1]` (or at 0 over an empty list, where the closed
      ArrowDown puts it): ArrowDown and ArrowUp never leave that range. */
  predicate InFocusRange(i: int, n: nat) {
    -1 <= i && (i == 0 || i < n)
  }

  lemma FocusKeysStayInRange(i: int, n: nat)
    requires InFocusRange(i, n)
    ensures InFocusRange(FocusDown(i, n), n)
    ensures InFocusRange(FocusUp(i), n)
  {
  }

  /** Pressing ArrowDown `k` times while open. */
  function FocusDownTimes(i: int, n: nat, k: nat): int
    decreases k
  {
    if k == 0 then i else FocusDownTimes(FocusDown(i, n), n, k - 1)
  }

  /** However often ArrowDown is pressed, the focus never passes the last option and
      never wraps. */
  lemma {:induction false} FocusDownClamped(i: int, n: nat, k: nat)
    requires n > 0 && -1 <= i < n
    ensures i <= FocusDownTimes(i, n, k) <= n - 1
    ensures i + k < n ==> FocusDownTimes(i, n, k) == i + k
    ensures i + k >= n - 1 ==> FocusDownTimes(i, n, k) == n - 1
    decreases k
  {
    if k > 0 {
      FocusDownClamped(FocusDown(i, n), n, k - 1);
    }
  }

  /** One mounted widget. `selectedValues` is the controlled list, written back
      through `onChange`; the parent's own updates of it (removing a tag, clearing
      all filters) have the effect of `RemoveOption` and `ClearAll`. */
  class Widget {
    var inputValue: string
    var isOpen: bool
    var focusedIndex: int
    var selectedValues: seq<string>
    const options: seq<SelectOption>
    const maxSuggestions: nat
    const minInputLength: nat

    function Filtered(): seq<SelectOption>
      reads this
    {
      FilteredOptions(inputValue, options, selectedValues, maxSuggestions, minInputLength)
    }

    /** The selection has no duplicates and the focus is in range. */
    predicate Valid()
      reads this
    {
      Distinct(selectedValues) && InFocusRange(focusedIndex, |Filtered()|)
    }

    constructor (selected0: seq<string>, options0: seq<SelectOption>, maxSuggestions0: nat, minInputLength0: nat)
      requires Distinct(selected0)
      ensures inputValue == "" && !isOpen && focusedIndex == -1 && selectedValues == selected0
      ensures options == options0 && maxSuggestions == maxSuggestions0 && minInputLength == minInputLength0
      ensures Valid()
    {
      inputValue := "";
      isOpen := false;
      focusedIndex := -1;
      selectedValues := selected0;
      options := options0;
      maxSuggestions := maxSuggestions0;
      minInputLength := minInputLength0;
    }

    /** `handleInputChange`: store the text, open iff it is long enough, no focus. */
    method InputChange(value: string)
      requires Valid()
      modifies this
      ensures inputValue == value && (isOpen <==> |value| >= minInputLength) && focusedIndex == -1
      ensures selectedValues == old(selectedValues)
      ensures Valid()
    {
      inputValue := value;
      isOpen := |value| >= minInputLength;
      focusedIndex := -1;
    }

    /** `handleSelectOption`: add the id if absent, then empty the text, close the
        list and drop the focus. */
    method SelectOption(optionId: string)
      requires Valid()
      modifies this
      ensures selectedValues == AddUnique(old(selectedValues), optionId)
      ensures inputValue == "" && !isOpen && focusedIndex == -1
      ensures Valid()
    {
      selectedValues := AddUnique(selectedValues, optionId);
      inputValue := "";
      isOpen := false;
      focusedIndex := -1;
    }

    /** `handleRemoveOption`: drop every occurrence of the id. */
    method RemoveOption(optionId: string)
      requires Valid()
      modifies this
      ensures selectedValues == Remove(old(selectedValues), optionId)
      ensures inputValue == old(inputValue) && isOpen == old(isOpen) && focusedIndex == old(focusedIndex)
      ensures Valid()
    {
      RemoveMembers(selectedValues, optionId);
      FewerSelectedMoreSuggestions(inputValue, options, selectedValues, Remove(selectedValues, optionId),
                                   maxSuggestions, minInputLength);
      RemoveDistinct(selectedValues, optionId);
      selectedValues := Remove(selectedValues, optionId);
    }

    /** `handleClearAll`: nothing selected. */
    method ClearAll()
      requires Valid()
      modifies this
      ensures selectedValues == []
      ensures inputValue == old(inputValue) && isOpen == old(isOpen) && focusedIndex == old(focusedIndex)
      ensures Valid()
    {
      FewerSelectedMoreSuggestions(inputValue, options, selectedValues, [], maxSuggestions, minInputLength);
      selectedValues := [];
    }

    /** `handleKeyDown`. Closed: ArrowDown opens with focus 0 when the text is long
        enough, every other key does nothing. Open: the arrows move the focus without
        wrapping, Enter selects the focused option when there is one, Escape closes. */
    method KeyDown(key: Key)
      requires Valid()
      modifies this
      ensures Valid()
      ensures !old(isOpen) ==>
        && inputValue == old(inputValue) && selectedValues == old(selectedValues)
        && if key == ArrowDown && |old(inputValue)| >= minInputLength then isOpen && focusedIndex == 0
           else !isOpen && focusedIndex == old(focusedIndex)
      ensures old(isOpen) ==>
        match key
        case ArrowDown =>
          && inputValue == old(inputValue) && selectedValues == old(selectedValues) && isOpen
          && focusedIndex == FocusDown(old(focusedIndex), |old(Filtered())|)
        case ArrowUp =>
          && inputValue == old(inputValue) && selectedValues == old(selectedValues) && isOpen
          && focusedIndex == FocusUp(old(focusedIndex))
        case Enter =>
          if 0 <= old(focusedIndex) < |old(Filtered())| then
            && selectedValues == AddUnique(old(selectedValues), old(Filtered())[old(focusedIndex)].id)
            && inputValue == "" && !isOpen && focusedIndex == -1
          else
            && inputValue == old(inputValue) && selectedValues == old(selectedValues)
            && isOpen && focusedIndex == old(focusedIndex)
        case Escape =>
          && inputValue == old(inputValue) && selectedValues == old(selectedValues)
          && !isOpen && focusedIndex == -1
        case OtherKey =>
          && inputValue == old(inputValue) && selectedValues == old(selectedValues)
          && isOpen && focusedIndex == old(focusedIndex)
    {
      var filtered := Filtered();
      if !isOpen {
        if key == ArrowDown && |inputValue| >= minInputLength {
          isOpen := true;
          focusedIndex := 0;
        }
        return;
      }
      match key
      case ArrowDown =>
        focusedIndex := FocusDown(focusedIndex, |filtered|);
      case ArrowUp =>
        focusedIndex := FocusUp(focusedIndex);
      case Enter =>
        if 0 <= focusedIndex < |filtered| {
          SelectOption(filtered[focusedIndex].id);
        }
      case Escape =>
        isOpen := false;
        focusedIndex := -1;
      case OtherKey =>
    }

    /** The input's focus handler: open when the text is long enough. */
    method Focus()
      requires Valid()
      modifies this
      ensures isOpen == (old(isOpen) || |inputValue| >= minInputLength)
      ensures inputValue == old(inputValue) && focusedIndex == old(focusedIndex)
      ensures selectedValues == old(selectedValues)
      ensures Valid()
    {
      if |inputValue| >= minInputLength {
        isOpen := true;
      }
    }

    /** The click-outside listener: close the list and drop the focus. */
    method ClickOutside()
      requires Valid()
      modifies this
      ensures !isOpen && focusedIndex == -1
      ensures inputValue == old(inputValue) && selectedValues == old(selectedValues)
      ensures Valid()
    {
      isOpen := false;
      focusedIndex := -1;
    }
  }
}
