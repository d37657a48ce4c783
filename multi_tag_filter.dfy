/**
 * src/MultiTagFilter.tsx: the input state of the tag filter and the selection
 * it hands to `onSelectedTagsChange`. Each handler is a function from the
 * current state and props to the new state and the selection passed on (if
 * the callback was called).
 */
module MultiTagFilter {
  import opened Common
  import opened TagInput

  datatype FilterState = FilterState(inputValue: string, suggestions: seq<string>, showSuggestions: bool)

  datatype FilterOutcome = FilterOutcome(state: FilterState, update: Option<seq<string>>)

  const SuggestionLimit: nat := 10

  /** `handleInputChange`: non-blank input shows up to ten matching tags not yet selected; blank input only hides the list. */
  function InputChange(st: FilterState, allTags: seq<string>, selected: seq<string>, value: string, lower: string -> string): (r: FilterState)
    ensures r.inputValue == value
    ensures r.showSuggestions <==> Trim(value) != ""
    ensures r.showSuggestions ==> (
              && |r.suggestions| <= 10
              && (forall t :: t in r.suggestions ==> t in allTags && t !in selected && Includes(lower(t), lower(value)))
              && (|r.suggestions| < 10 ==> forall t :: t in allTags && t !in selected && Includes(lower(t), lower(value)) ==> t in r.suggestions))
    ensures !r.showSuggestions ==> r.suggestions == st.suggestions
  {
    if Trim(value) != "" then FilterState(value, Suggest(allTags, selected, value, lower, SuggestionLimit), true)
    else st.(inputValue := value, showSuggestions := false)
  }

  /** `addTag`: the trimmed tag is appended when non-empty and not selected; the input is cleared either way. */
  function AddTag(st: FilterState, selected: seq<string>, tag: string): (r: FilterOutcome)
    ensures r.state == st.(inputValue := "", showSuggestions := false)
    ensures r.update.Some? <==> Trim(tag) != "" && Trim(tag) !in selected
    ensures r.update.Some? ==> r.update.value == selected + [Trim(tag)]
  {
    var newTag := Trim(tag);
    var update := if newTag != "" && newTag !in selected then Some(selected + [newTag]) else None;
    FilterOutcome(st.(inputValue := "", showSuggestions := false), update)
  }

  /** `removeTag`: always reports the selection without the tag. */
  function RemoveTag(selected: seq<string>, tag: string): seq<string> {
    WithoutTag(selected, tag)
  }

  /**
   * `handleKeyDown`: Enter on a non-empty input adds the first suggestion, or
   * the input when there is none; Backspace on an empty input removes the last
   * selected tag, if any.
   */
  function KeyDown(st: FilterState, key: string, selected: seq<string>): FilterOutcome {
    if key == "Enter" && st.inputValue != "" then
      AddTag(st, selected, if |st.suggestions| > 0 then st.suggestions[0] else st.inputValue)
    else if key == "Backspace" && st.inputValue == "" && |selected| > 0 then
      FilterOutcome(st, Some(RemoveTag(selected, selected[|selected| - 1])))
    else FilterOutcome(st, None)
  }

  /** `onFocus`: a non-empty input shows the list again, whatever it last held. */
  function Focus(st: FilterState): FilterState {
    if st.inputValue != "" then st.(showSuggestions := true) else st
  }

  /** Adding keeps a duplicate-free selection duplicate-free, and removing the added tag undoes it. */
  lemma AddTagThenRemove(st: FilterState, selected: seq<string>, tag: string)
    requires AddTag(st, selected, tag).update.Some?
    ensures NoDup(selected) ==> NoDup(AddTag(st, selected, tag).update.value)
    ensures RemoveTag(AddTag(st, selected, tag).update.value, Trim(tag)) == selected
  {
    AppendThenRemove(selected, Trim(tag));
  }

  /** A selection built by `addTag` alone never holds a tag twice, so Backspace drops exactly the last one. */
  lemma BackspaceDropsLast(st: FilterState, selected: seq<string>)
    requires st.inputValue == "" && |selected| > 0 && NoDup(selected)
    ensures KeyDown(st, "Backspace", selected) == FilterOutcome(st, Some(selected[..|selected| - 1]))
  {
    var n := |selected| - 1;
    assert selected == selected[..n] + [selected[n]];
    assert selected[n] !in selected[..n];
    AppendThenRemove(selected[..n], selected[n]);
  }

  /** Enter on a non-empty input does what clicking the first suggestion does, or adds the typed text. */
  lemma EnterChoice(st: FilterState, selected: seq<string>)
    requires st.inputValue != ""
    ensures |st.suggestions| > 0 ==> KeyDown(st, "Enter", selected) == AddTag(st, selected, st.suggestions[0])
    ensures |st.suggestions| == 0 ==> KeyDown(st, "Enter", selected) == AddTag(st, selected, st.inputValue)
  {
  }

  /** Keys other than Enter and Backspace, and Backspace over typed text, change nothing. */
  lemma OtherKeysIgnored(st: FilterState, key: string, selected: seq<string>)
    requires key != "Enter" && (key != "Backspace" || st.inputValue != "" || |selected| == 0)
    ensures KeyDown(st, key, selected) == FilterOutcome(st, None)
  {
  }

  /**
   * Blank input hides the previous suggestions without dropping them: then
   * focusing the input shows them again, and Enter adds the first of them.
   */
  lemma BlankInputKeepsSuggestions(st0: FilterState, allTags: seq<string>, selected: seq<string>, typed: string, blank: string, lower: string -> string)
    requires Trim(typed) != "" && blank != "" && Trim(blank) == ""
    requires |Suggest(allTags, selected, typed, lower, SuggestionLimit)| > 0
    ensures var st1 := InputChange(st0, allTags, selected, typed, lower);
            var st2 := InputChange(st1, allTags, selected, blank, lower);
            && !st2.showSuggestions
            && Focus(st2) == st2.(showSuggestions := true)
            && st2.suggestions == st1.suggestions != []
            && KeyDown(st2, "Enter", selected) == AddTag(st2, selected, st1.suggestions[0])
  {
  }
}
