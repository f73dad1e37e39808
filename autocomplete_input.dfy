/** The single-value autocomplete field: which options the dropdown lists for the
    typed text, the wrapping highlight that the arrow keys move, and the open/closed
    state that typing, selecting, Escape and clearing change. */
module AutocompleteInput {
  import opened Wrappers
  import opened Seqs
  import opened Text

  datatype AutocompleteOption = AutocompleteOption(id: string, labelText: string, description: Option<string>)

  /** The option's label, or its non-empty description, contains the lower-cased
      search term in lower case. */
  predicate OptionMatches(o: AutocompleteOption, searchTerm: string) {
    || Contains(Lower(o.labelText), searchTerm)
    || (o.description.Some? && o.description.value != "" && Contains(Lower(o.description.value), searchTerm))
  }

  function Matcher(searchTerm: string): AutocompleteOption -> bool {
    (o: AutocompleteOption) => OptionMatches(o, searchTerm)
  }

  /** All options that match the typed text, before the cap is applied. */
  function Matching(value: string, options: seq<AutocompleteOption>): seq<AutocompleteOption> {
    Filter(options, Matcher(Lower(value)))
  }

  /** True when the typed text is long enough for suggestions to be computed. */
  predicate LongEnough(value: string, minInputLength: nat) {
    value != "" && |value| >= minInputLength
  }

  /** The listed suggestions: nothing for an empty or too-short text, otherwise the
      first `maxSuggestions` matching options in their original order. */
  function FilteredOptions(value: string, options: seq<AutocompleteOption>, maxSuggestions: nat, minInputLength: nat)
    : (r: seq<AutocompleteOption>)
    ensures !LongEnough(value, minInputLength) ==> r == []
    ensures |r| <= maxSuggestions
    ensures IsSubsequence(r, options)
    ensures forall i :: 0 <= i < |r| ==> OptionMatches(r[i], Lower(value))
    ensures LongEnough(value, minInputLength) ==>
      |r| == if |Matching(value, options)| <= maxSuggestions then |Matching(value, options)| else maxSuggestions
    ensures LongEnough(value, minInputLength) ==> r == Matching(value, options)[..|r|]
  {
    if !LongEnough(value, minInputLength) then []
    else
      var m := Matching(value, options);
      FilterIsSubsequence(options, Matcher(Lower(value)));
      SubsequencePrefix(m, options, |Take(m, maxSuggestions)|);
      assert Take(m, maxSuggestions) == m[..|Take(m, maxSuggestions)|];
      assert forall i :: 0 <= i < |Take(m, maxSuggestions)| ==> Take(m, maxSuggestions)[i] in m;
      Take(m, maxSuggestions)
  }

  /** When the cap is not reached, every matching option is listed. */
  lemma {:induction false} FilteredComplete(value: string, options: seq<AutocompleteOption>, maxSuggestions: nat, minInputLength: nat, o: AutocompleteOption)
    requires LongEnough(value, minInputLength)
    requires |Matching(value, options)| <= maxSuggestions
    requires o in options && OptionMatches(o, Lower(value))
    ensures o in FilteredOptions(value, options, maxSuggestions, minInputLength)
  {
    FilterMember(options, Matcher(Lower(value)), o);
  }

  /** The "more results" line sits inside the dropdown, which is drawn only while
      open and non-empty, and appears when the list is as long as the cap. For a
      long enough text that is exactly when the cap is positive and at least that
      many options match. */
  predicate ShowsMoreResults(isOpen: bool, filtered: seq<AutocompleteOption>, maxSuggestions: nat) {
    isOpen && |filtered| > 0 && |filtered| == maxSuggestions
  }

  lemma {:induction false} MoreResultsMeaning(isOpen: bool, value: string, options: seq<AutocompleteOption>, maxSuggestions: nat, minInputLength: nat)
    requires LongEnough(value, minInputLength)
    ensures ShowsMoreResults(isOpen, FilteredOptions(value, options, maxSuggestions, minInputLength), maxSuggestions)
      <==> isOpen && maxSuggestions > 0 && |Matching(value, options)| >= maxSuggestions
  {
  }

  /** ArrowDown moves the highlight one down, wrapping from the last option to the
      first; with no highlight it goes to the first. */
  function NextIndex(i: int, n: nat): (r: int)
    requires n > 0 && -1 <= i < n
    ensures 0 <= r < n
    ensures i < n - 1 ==> r == i + 1
    ensures i == n - 1 ==> r == 0
  {
    if i < n - 1 then i + 1 else 0
  }

  /** ArrowUp moves the highlight one up, wrapping from the first option (or from no
      highlight) to the last. */
  function PrevIndex(i: int, n: nat): (r: int)
    requires n > 0 && -1 <= i < n
    ensures 0 <= r < n
    ensures 0 < i ==> r == i - 1
    ensures i <= 0 ==> r == n - 1
  {
    if i > 0 then i - 1 else n - 1
  }

  /** On a highlighted option, ArrowUp undoes ArrowDown and ArrowDown undoes ArrowUp. */
  lemma {:induction false} ArrowKeysInverse(i: int, n: nat)
    requires n > 0 && 0 <= i < n
    ensures PrevIndex(NextIndex(i, n), n) == i
    ensures NextIndex(PrevIndex(i, n), n) == i
  {
  }

  /** Pressing ArrowDown `k` times. */
  function DownTimes(i: int, n: nat, k: nat): (r: int)
    requires n > 0 && -1 <= i < n
    ensures k > 0 ==> 0 <= r < n
    decreases k
  {
    if k == 0 then i else DownTimes(NextIndex(i, n), n, k - 1)
  }

  /** Below the last option, `k` presses of ArrowDown move `k` places down. */
  lemma {:induction false} DownSteps(i: int, n: nat, k: nat)
    requires n > 0 && -1 <= i && i + k < n
    ensures DownTimes(i, n, k) == i + k
    decreases k
  {
    if k > 0 {
      DownSteps(i + 1, n, k - 1);
    }
  }

  /** Presses of ArrowDown can be split into two runs. */
  lemma {:induction false} DownCompose(i: int, n: nat, a: nat, b: nat)
    requires n > 0 && -1 <= i < n
    ensures DownTimes(i, n, a + b) == DownTimes(DownTimes(i, n, a), n, b)
    decreases a
  {
    if a > 0 {
      DownCompose(NextIndex(i, n), n, a - 1, b);
      assert a + b - 1 == (a - 1) + b;
    }
  }

  /** From any highlighted option, `n` presses of ArrowDown come back to it: down to
      the last option, one wrap to the first, then down again. */
  lemma {:induction false} DownFullCircle(i: int, n: nat)
    requires n > 0 && 0 <= i < n
    ensures DownTimes(i, n, n) == i
  {
    var toLast := n - 1 - i;
    DownSteps(i, n, toLast);
    DownCompose(i, n, toLast, 1 + i);
    DownCompose(n - 1, n, 1, i);
    assert DownTimes(n - 1, n, 1) == 0;
    DownSteps(0, n, i);
    assert toLast + (1 + i) == n;
  }

  datatype Key = ArrowDown | ArrowUp | Enter | Escape | OtherKey

  /** One mounted field. `value` is the controlled text, written back through
      `onChange` (the parent stores exactly what it is given); `options`, the cap and
      the minimum length are the props, fixed once the filter data has loaded. */
  class Widget {
    var value: string
    var isOpen: bool
    var highlightedIndex: int
    const options: seq<AutocompleteOption>
    const maxSuggestions: nat
    const minInputLength: nat

    function Filtered(): seq<AutocompleteOption>
      reads this
    {
      FilteredOptions(value, options, maxSuggestions, minInputLength)
    }

    /** The highlight is absent or, while options are listed, on one of them. (When
        the parent empties the text the list is empty and a stale highlight is
        harmless: keys are ignored until the next input change resets it.) */
    predicate Valid()
      reads this
    {
      -1 <= highlightedIndex && (|Filtered()| > 0 ==> highlightedIndex < |Filtered()|)
    }

    constructor (value0: string, options0: seq<AutocompleteOption>, maxSuggestions0: nat, minInputLength0: nat)
      ensures value == value0 && options == options0
      ensures maxSuggestions == maxSuggestions0 && minInputLength == minInputLength0
      ensures !isOpen && highlightedIndex == -1
      ensures Valid()
    {
      value := value0;
      options := options0;
      maxSuggestions := maxSuggestions0;
      minInputLength := minInputLength0;
      isOpen := false;
      highlightedIndex := -1;
    }

    /** `handleInputChange`: store the new text, open iff it is long enough, drop the
        highlight. */
    method InputChange(newValue: string)
      modifies this
      ensures value == newValue
      ensures isOpen <==> |newValue| >= minInputLength
      ensures highlightedIndex == -1
      ensures Valid()
    {
      value := newValue;
      isOpen := |newValue| >= minInputLength;
      highlightedIndex := -1;
    }

    /** `handleOptionSelect`: the text becomes the option's label and the list closes. */
    method OptionSelect(option: AutocompleteOption)
      modifies this
      ensures value == option.labelText && !isOpen && highlightedIndex == -1
      ensures Valid()
    {
      value := option.labelText;
      isOpen := false;
      highlightedIndex := -1;
    }

    /** `handleKeyDown`. Nothing happens while the list is closed or empty; the arrows
        move the highlight cyclically; Enter selects the highlighted option; Escape
        closes the list. */
    method KeyDown(key: Key)
      requires Valid()
      modifies this
      ensures Valid()
      ensures !old(isOpen) || |old(Filtered())| == 0 ==>
        value == old(value) && isOpen == old(isOpen) && highlightedIndex == old(highlightedIndex)
      ensures old(isOpen) && |old(Filtered())| > 0 ==>
        match key
        case ArrowDown =>
          value == old(value) && isOpen && highlightedIndex == NextIndex(old(highlightedIndex), |old(Filtered())|)
        case ArrowUp =>
          value == old(value) && isOpen && highlightedIndex == PrevIndex(old(highlightedIndex), |old(Filtered())|)
        case Enter =>
          if old(highlightedIndex) >= 0 then
            value == old(Filtered())[old(highlightedIndex)].labelText && !isOpen && highlightedIndex == -1
          else
            value == old(value) && isOpen && highlightedIndex == -1
        case Escape => value == old(value) && !isOpen && highlightedIndex == -1
        case OtherKey => value == old(value) && isOpen && highlightedIndex == old(highlightedIndex)
    {
      var filtered := Filtered();
      if !isOpen || |filtered| == 0 {
        return;
      }
      match key
      case ArrowDown =>
        highlightedIndex := NextIndex(highlightedIndex, |filtered|);
      case ArrowUp =>
        highlightedIndex := PrevIndex(highlightedIndex, |filtered|);
      case Enter =>
        if highlightedIndex >= 0 {
          OptionSelect(filtered[highlightedIndex]);
        }
      case Escape =>
        isOpen := false;
        highlightedIndex := -1;
      case OtherKey =>
    }

    /** `handleClear`: empty text, closed list, no highlight. */
    method Clear()
      modifies this
      ensures value == "" && !isOpen && highlightedIndex == -1
      ensures Filtered() == []
      ensures Valid()
    {
      value := "";
      isOpen := false;
      highlightedIndex := -1;
    }

    /** `handleFocus`: open when the text is long enough; nothing else changes. */
    method Focus()
      requires Valid()
      modifies this
      ensures value == old(value) && highlightedIndex == old(highlightedIndex)
      ensures isOpen == (old(isOpen) || |value| >= minInputLength)
      ensures Valid()
    {
      if |value| >= minInputLength {
        isOpen := true;
      }
    }

    /** `handleBlur`, and the click-outside listener: close the list. */
    method Close()
      requires Valid()
      modifies this
      ensures value == old(value) && highlightedIndex == old(highlightedIndex) && !isOpen
      ensures Valid()
    {
      isOpen := false;
    }

    /** The parent empties the text (removing the search tag, clearing all filters):
        no suggestions are listed then, so every key is ignored until the next
        input change. */
    method ParentClears()
      modifies this
      requires Valid()
      ensures value == "" && isOpen == old(isOpen) && highlightedIndex == old(highlightedIndex)
      ensures Filtered() == []
      ensures Valid()
    {
      value := "";
    }
  }
}
