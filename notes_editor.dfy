/**
 * The `Notes` component's state and handlers. Every piece of component state
 * is a field of `NotesEditor`; every handler is a method that updates those
 * fields exactly as the handler's setter calls do. The effect that loads the
 * active note into the draft is the explicit step `LoadActiveNote`, and
 * `SelectNote` is a click on a note: `handleEditNote` followed by that effect.
 */
module Notes {
  import opened Text
  import opened NoteStore

  /** The editor's staged fields, taken together. */
  datatype Draft = Draft(text: string, bold: bool, italic: bool, font: string, size: string, images: seq<string>)

  class NotesEditor {
    var notes: seq<Note>
    var activeNoteId: Option<int>
    var text: string
    var bold: bool
    var italic: bool
    var font: string
    var size: string
    var images: seq<string>
    var isEditing: bool

    /**
     * No committed note is blank, and the editor is in "save" mode only while a
     * note is selected and present in the store. Every handler keeps this; a bare
     * `HandleEditNote` breaks the second part until the load effect runs.
     */
    ghost predicate Valid()
      reads this`isEditing, this`activeNoteId, this`notes
    {
      NoBlankNotes(notes) &&
      (isEditing ==> activeNoteId.Some? && HasId(notes, activeNoteId.value))
    }

    function Staged(): Draft
      reads this
    {
      Draft(text, bold, italic, font, size, images)
    }

    /** What `resetFields` leaves behind (font and size are not part of it). */
    predicate IsCleared()
      reads this
    {
      text == "" && !bold && !italic && images == [] && activeNoteId == None && !isEditing
    }

    /** The initial render: the seed note, nothing selected, a blank Arial 16px draft. */
    constructor (seedId: int)
      ensures notes == [DefaultNote(seedId)] && activeNoteId == None && !isEditing
      ensures Staged() == Draft("", false, false, "Arial", "16px", [])
      ensures Valid()
    {
      assert !IsWhitespace(DefaultNoteText[0]);
      notes := [DefaultNote(seedId)];
      activeNoteId := None;
      text := "";
      bold := false;
      italic := false;
      font := "Arial";
      size := "16px";
      images := [];
      isEditing := false;
    }

    /** The editor surface's input event: the draft text becomes the surface's current HTML. */
    method HandleTextChange(html: string)
      modifies this`text
      ensures text == html
    {
      text := html;
    }

    /** Clears the draft and the selection; keeps font, size and the store. */
    method ResetFields()
      requires NoBlankNotes(notes)
      modifies this
      ensures IsCleared() && Valid()
      ensures notes == old(notes) && font == old(font) && size == old(size)
    {
      text := "";
      bold := false;
      italic := false;
      images := [];
      activeNoteId := None;
      isEditing := false;
    }

    /**
     * "Add": a blank draft is rejected and nothing changes; otherwise a note with
     * the draft's text, style and images is appended at the end and the draft is reset.
     */
    method HandleAddNote(newId: int)
      requires Valid()
      modifies this
      ensures Valid()
      ensures IsBlank(old(text)) ==> unchanged(this)
      ensures !IsBlank(old(text)) ==>
        notes == old(notes) + [Note(newId, old(text), DraftStyle(old(font), old(size), old(bold), old(italic)), old(images))]
      ensures !IsBlank(old(text)) ==> IsCleared() && font == old(font) && size == old(size)
    {
      if Trim(text) == [] {
        return;
      }
      var newNote := Note(newId, text, DraftStyle(font, size, bold, italic), images);
      notes := notes + [newNote];
      ResetFields();
    }

    /**
     * "Save": rejected with no change when the draft is blank or nothing is
     * selected; otherwise every note carrying the active id takes the draft's
     * text, style and images, and the draft is reset.
     */
    method HandleSaveNote()
      requires Valid()
      modifies this
      ensures Valid()
      ensures IsBlank(old(text)) || old(activeNoteId).None? ==> unchanged(this)
      ensures !IsBlank(old(text)) && old(activeNoteId).Some? ==>
        notes == ReplaceById(old(notes), old(activeNoteId).value, old(text),
                             DraftStyle(old(font), old(size), old(bold), old(italic)), old(images))
      ensures !IsBlank(old(text)) && old(activeNoteId).Some? ==>
        IsCleared() && font == old(font) && size == old(size)
    {
      if Trim(text) == [] || activeNoteId.None? {
        return;
      }
      var style := DraftStyle(font, size, bold, italic);
      notes := ReplaceById(notes, activeNoteId.value, text, style, images);
      ResetFields();
    }

    /** A click on a note only records the selection; loading happens in `LoadActiveNote`. */
    method HandleEditNote(id: int)
      modifies this`activeNoteId
      ensures activeNoteId == Some(id)
    {
      activeNoteId := Some(id);
    }

    /**
     * The load effect: when the active id is found, the draft takes the first
     * matching note's text, font, size and images, the flags are decoded from its
     * style, and the editor enters "save" mode; otherwise it only leaves "save"
     * mode and the draft stays as it was.
     */
    method LoadActiveNote()
      requires NoBlankNotes(notes)
      modifies this`text, this`bold, this`italic, this`font, this`size, this`images, this`isEditing
      ensures Valid()
      ensures var found := if activeNoteId.Some? then Find(notes, activeNoteId.value) else None;
        match found
        case Some(n) =>
          Staged() == Draft(n.text, IsBold(n.fontStyle), IsItalic(n.fontStyle), n.fontStyle.fontFamily, n.fontStyle.fontSize, n.images)
          && isEditing
        case None =>
          Staged() == old(Staged()) && !isEditing
    {
      var found := if activeNoteId.Some? then Find(notes, activeNoteId.value) else None;
      match found
      case Some(n) =>
        text := n.text;
        bold := IsBold(n.fontStyle);
        italic := IsItalic(n.fontStyle);
        font := n.fontStyle.fontFamily;
        size := n.fontStyle.fontSize;
        images := n.images;
        isEditing := true;
      case None =>
        isEditing := false;
    }

    /**
     * A click on a note: `handleEditNote` and then the load effect. Selecting the
     * id that is already active sets the same state value, so the component does
     * not re-render and the effect does not run.
     */
    method SelectNote(id: int)
      requires Valid()
      modifies this
      ensures Valid()
      ensures old(activeNoteId) == Some(id) ==> unchanged(this)
      ensures old(activeNoteId) != Some(id) ==> activeNoteId == Some(id) && notes == old(notes)
      ensures old(activeNoteId) != Some(id) ==>
        match Find(notes, id)
        case Some(n) =>
          Staged() == Draft(n.text, IsBold(n.fontStyle), IsItalic(n.fontStyle), n.fontStyle.fontFamily, n.fontStyle.fontSize, n.images)
          && isEditing
        case None =>
          Staged() == old(Staged()) && !isEditing
    {
      if activeNoteId == Some(id) {
        return;
      }
      HandleEditNote(id);
      LoadActiveNote();
    }

    /**
     * Removes every note carrying `id`, keeping the others in order; the draft
     * is reset only when the deleted id is the active one.
     */
    method HandleDeleteNote(id: int)
      requires Valid()
      modifies this
      ensures Valid()
      ensures notes == RemoveById(old(notes), id)
      ensures old(activeNoteId) == Some(id) ==> IsCleared() && font == old(font) && size == old(size)
      ensures old(activeNoteId) != Some(id) ==>
        activeNoteId == old(activeNoteId) && isEditing == old(isEditing) && Staged() == old(Staged())
    {
      var wasActive := activeNoteId == Some(id);
      RemoveKeepsNoBlankNotes(notes, id);
      notes := RemoveById(notes, id);
      if wasActive {
        ResetFields();
      } else if isEditing {
        RemoveKeepsOtherIds(old(notes), id, activeNoteId.value);
      }
    }

    method HandleBoldToggle()
      modifies this`bold
      ensures bold == !old(bold)
    {
      bold := !bold;
    }

    method HandleItalicToggle()
      modifies this`italic
      ensures italic == !old(italic)
    {
      italic := !italic;
    }

    /** The font picker's value; the picker offers Arial, Georgia, Times New Roman and Verdana. */
    method HandleFontChange(value: string)
      modifies this`font
      ensures font == value
    {
      font := value;
    }

    /** The size picker's value; the picker offers 12px, 16px, 20px and 24px. */
    method HandleSizeChange(value: string)
      modifies this`size
      ensures size == value
    {
      size := value;
    }

    /** The file reader's completion callback: the loaded data URI joins the draft's images at the end. */
    method HandleImageLoaded(dataUri: string)
      modifies this`images
      ensures images == old(images) + [dataUri]
    {
      images := images + [dataUri];
    }

    /** The commit button: "Save" while editing a note, "Add" otherwise. */
    method Commit(newId: int)
      requires Valid()
      modifies this
      ensures Valid()
      ensures IsBlank(old(text)) ==> unchanged(this)
      ensures !IsBlank(old(text)) && old(isEditing) ==>
        notes == ReplaceById(old(notes), old(activeNoteId).value, old(text),
                             DraftStyle(old(font), old(size), old(bold), old(italic)), old(images))
      ensures !IsBlank(old(text)) && !old(isEditing) ==>
        notes == old(notes) + [Note(newId, old(text), DraftStyle(old(font), old(size), old(bold), old(italic)), old(images))]
      ensures !IsBlank(old(text)) ==> IsCleared() && font == old(font) && size == old(size)
    {
      if isEditing {
        HandleSaveNote();
      } else {
        HandleAddNote(newId);
      }
    }
  }
}
