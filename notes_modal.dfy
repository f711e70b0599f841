/**
 * The "new note" dialog: a form of title, content, colour and error message.
 * Submitting refuses a blank title with an error; otherwise it hands the
 * trimmed note to the page and clears the form.  Cancel and the close button
 * clear the form without saving.
 *
 * The note's id (`Date.now()`) and creation time (`toISOString()`) are
 * parameters; the page's onSave is the returned note and onClose the
 * returned flag.
 */
module NotesModal {
  import opened Optional
  import opened JsText

  datatype Note = Note(id: int, title: string, content: string, color: string, isPinned: bool, createdAt: string)

  /** The values of the seven colour buttons. */
  const ColorValues: set<string> := {"purple", "green", "yellow", "red", "blue", "teal", "pink"}

  const DefaultColor := "purple"

  const EmptyTitleError := "Judul tidak boleh kosong"

  /**
   * The note a submit builds: none for a title that is blank after trimming;
   * otherwise the trimmed title and content, the chosen colour, not pinned.
   */
  function NoteFor(title: string, content: string, color: string, id: int, createdAt: string): (n: Option<Note>)
    ensures n.None? <==> Blank(title)
    ensures n.Some? ==> n.value.title != [] && n.value.title == Trim(title)
    ensures n.Some? ==> n.value.content == Trim(content) && n.value.color == color && !n.value.isPinned
    ensures n.Some? ==> n.value.id == id && n.value.createdAt == createdAt
  {
    TrimEmptyIffBlank(title);
    if Trim(title) == "" then None
    else Some(Note(id, Trim(title), Trim(content), color, false, createdAt))
  }

  /** A saved note's title and content are already trimmed, and the title is not blank. */
  lemma SavedNoteTrimmed(title: string, content: string, color: string, id: int, createdAt: string)
    requires NoteFor(title, content, color, id, createdAt).Some?
    ensures var n := NoteFor(title, content, color, id, createdAt).value;
      Trim(n.title) == n.title && Trim(n.content) == n.content && !Blank(n.title)
  {
    TrimIdempotent(title);
    TrimIdempotent(content);
    TrimEmptyIffBlank(Trim(title));
  }

  class NoteForm {
    var title: string
    var content: string
    var color: string
    var error: string

    /** The colour is always one of the buttons' values. */
    ghost predicate Valid()
      reads this
    {
      color in ColorValues
    }

    /** Whether the form is in its cleared state. */
    ghost predicate Cleared()
      reads this
    {
      title == "" && content == "" && color == DefaultColor && error == ""
    }

    constructor ()
      ensures Valid() && Cleared()
    {
      title := "";
      content := "";
      color := DefaultColor;
      error := "";
    }

    /** `reset`: every field back to its initial value. */
    method Reset()
      modifies this
      ensures Valid() && Cleared()
    {
      title := "";
      content := "";
      color := DefaultColor;
      error := "";
    }

    /** Typing in the title: a title that is not blank clears the error; a blank one leaves it. */
    method TitleChange(value: string)
      requires Valid()
      modifies this`title, this`error
      ensures Valid() && title == value
      ensures !Blank(value) ==> error == ""
      ensures Blank(value) ==> error == old(error)
    {
      title := value;
      TrimEmptyIffBlank(value);
      if Trim(value) != "" {
        error := "";
      }
    }

    method ContentChange(value: string)
      requires Valid()
      modifies this`content
      ensures Valid() && content == value
    {
      content := value;
    }

    /** A colour button: only the seven values are offered. */
    method ColorChange(value: string)
      requires Valid() && value in ColorValues
      modifies this`color
      ensures Valid() && color == value
    {
      color := value;
    }

    /**
     * `handleSubmit`: a blank title sets the error and saves nothing, leaving
     * the dialog open; otherwise the note goes to the page, the form is
     * cleared and the dialog closes.
     */
    method Submit(id: int, createdAt: string) returns (saved: Option<Note>, closed: bool)
      requires Valid()
      modifies this
      ensures Valid()
      ensures saved == NoteFor(old(title), old(content), old(color), id, createdAt)
      ensures closed <==> saved.Some?
      ensures saved.None? ==>
        error == EmptyTitleError && title == old(title) && content == old(content) && color == old(color)
      ensures saved.Some? ==> Cleared()
    {
      TrimEmptyIffBlank(title);
      if Trim(title) == "" {
        error := EmptyTitleError;
        return None, false;
      }
      saved := NoteFor(title, content, color, id, createdAt);
      Reset();
      closed := true;
    }

    /** The Cancel and close buttons: the form is cleared, nothing is saved, the dialog closes. */
    method Cancel() returns (closed: bool)
      modifies this
      ensures Valid() && Cleared() && closed
    {
      Reset();
      closed := true;
    }
  }
}
