/** The creation form: a name field and a choice between task and checklist. */
module AddForm {
  import opened Wrappers
  import opened Text
  import opened Home

  /**
   * What a submit hands to the registry: nothing when the trimmed name is
   * empty or no kind is chosen, otherwise one entry named by the trimmed
   * input, of the chosen kind, with no completion flag.
   */
  function Accept(inputText: string, selectedType: Option<Kind>): (r: Option<ListEntry>)
    ensures r.Some? <==> !IsBlank(inputText) && selectedType.Some?
    ensures r.Some? ==> r.value == ListEntry(Trim(inputText), selectedType.value, None)
    ensures r.Some? ==> var name := r.value.name;
      name != [] && !IsWhitespace(name[0]) && !IsWhitespace(name[|name| - 1])
  {
    var trimmed := Trim(inputText);
    if trimmed == [] || selectedType.None? then None
    else Some(ListEntry(trimmed, selectedType.value, None))
  }

  /** An accepted name has no whitespace left to trim. */
  lemma AcceptedNameIsTrimmed(inputText: string, selectedType: Option<Kind>)
    requires Accept(inputText, selectedType).Some?
    ensures Trim(Accept(inputText, selectedType).value.name) == Accept(inputText, selectedType).value.name
  {
    TrimIdempotent(inputText);
  }

  /** The form's state: the text typed so far and the kind picked, if any. */
  class AddScreen {
    var inputText: string
    var selectedType: Option<Kind>

    constructor ()
      ensures inputText == [] && selectedType == None
    {
      inputText := [];
      selectedType := None;
    }

    /** Typing into the name field. */
    method ChangeText(text: string)
      modifies this
      ensures inputText == text && selectedType == old(selectedType)
    {
      inputText := text;
    }

    /** Pressing one of the two kind buttons. */
    method SelectType(kind: Kind)
      modifies this
      ensures selectedType == Some(kind) && inputText == old(inputText)
    {
      selectedType := Some(kind);
    }

    /**
     * `handleSubmit`: an accepted submit emits its entry and resets both
     * fields; a rejected one emits nothing and leaves both as they were.
     */
    method Submit() returns (newItem: Option<ListEntry>)
      modifies this
      ensures newItem == Accept(old(inputText), old(selectedType))
      ensures newItem.Some? ==> inputText == [] && selectedType == None
      ensures newItem.None? ==> inputText == old(inputText) && selectedType == old(selectedType)
    {
      newItem := Accept(inputText, selectedType);
      if newItem.Some? {
        inputText := [];
        selectedType := None;
      }
    }
  }
}
