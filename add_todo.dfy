/**
 The input field for a new task: one piece of state, the text typed so far, and a submit that
 hands the trimmed text to the store.
 */
module AddTodo {
  import opened Text

  /** The submit button is shown while the trimmed text is not empty. */
  predicate SubmitVisible(text: string) {
    |Trim(text)| > 0
  }

  /** The button is shown exactly when the text holds a character that is not white space. */
  lemma SubmitVisibleIff(text: string)
    ensures SubmitVisible(text) <==> exists k :: 0 <= k < |text| && !IsWhitespace(text[k])
  {
    TrimEmptyIff(text);
  }

  /** The text the user has typed. */
  class AddTodoInput {
    var text: string

    /** The field starts empty. */
    constructor ()
      ensures text == ""
    {
      text := "";
    }

    /** Typing replaces the whole text. */
    method ChangeText(newText: string)
      modifies this
      ensures text == newText
    {
      text := newText;
    }

    /**
     Submit: blank text asks for nothing and keeps the field as it is; otherwise it asks for
     exactly one add, of the trimmed text, and clears the field. What it hands over is never
     empty and neither starts nor ends with white space.
     */
    method Submit() returns (adds: seq<string>)
      modifies this
      ensures Trim(old(text)) == [] ==> adds == [] && text == old(text)
      ensures Trim(old(text)) != [] ==> adds == [Trim(old(text))] && text == ""
      ensures forall a :: a in adds ==>
        a != [] && !IsWhitespace(a[0]) && !IsWhitespace(a[|a| - 1]) && Trim(a) == a
    {
      var trimmed := Trim(text);
      if trimmed == [] {
        adds := [];
        return;
      }
      TrimmedHasNoOuterWhitespace(text);
      TrimIdempotent(text);
      adds := [trimmed];
      text := "";
    }
  }
}
