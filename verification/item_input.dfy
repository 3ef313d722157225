/** The one-field input above a checklist that forwards new item texts to the list. */
module ItemInput {
  import opened Wrappers
  import opened Text

  /**
   * What a submit forwards: the text exactly as typed when it holds some
   * character other than whitespace, and nothing otherwise.
   */
  function Forward(text: string): (r: Option<string>)
    ensures r.Some? <==> exists i :: 0 <= i < |text| && !IsWhitespace(text[i])
    ensures r.Some? ==> r.value == text
  {
    BlankIff(text);
    if IsBlank(text) then None else Some(text)
  }

  class InputHandler {
    var text: string

    constructor ()
      ensures text == []
    {
      text := [];
    }

    /** Typing into the field. */
    method ChangeText(t: string)
      modifies this
      ensures text == t
    {
      text := t;
    }

    /** `handleSubmit`: forwards non-blank text once and clears the field; blank text is kept and not forwarded. */
    method Submit() returns (forwarded: Option<string>)
      modifies this
      ensures forwarded == Forward(old(text))
      ensures text == if forwarded.Some? then [] else old(text)
    {
      forwarded := Forward(text);
      if forwarded.Some? {
        text := [];
      }
    }
  }
}
