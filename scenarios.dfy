/**
 * Sequences of user events on the notes widget, proved from the handlers'
 * contracts alone: what a user sees after adding and re-opening a note,
 * after re-styling a note, after deleting twice and after toggling twice.
 */
module Scenarios {
  import opened Text
  import opened NoteStore
  import opened Notes

  /**
   * Adding a non-blank draft under a fresh id and then clicking the new note
   * loads back exactly the draft that was added: text, flags, font, size, images.
   */
  method AddThenSelect(e: NotesEditor, newId: int)
    requires e.Valid() && !e.isEditing && !IsBlank(e.text) && !HasId(e.notes, newId)
    modifies e
    ensures e.Valid() && e.isEditing && e.activeNoteId == Some(newId)
    ensures e.Staged() == old(e.Staged())
    ensures |e.notes| == |old(e.notes)| + 1 && e.notes[..|old(e.notes)|] == old(e.notes)
  {
    ghost var before := e.notes;
    ghost var draft := e.Staged();
    e.Commit(newId);
    ghost var added := Note(newId, draft.text, DraftStyle(draft.font, draft.size, draft.bold, draft.italic), draft.images);
    assert e.notes == before + [added];
    FindAfterAppend(before, added, newId);
    e.SelectNote(newId);
    assert e.notes[..|before|] == before;
  }

  /**
   * With distinct ids, clicking note `i` (not already selected) loads exactly
   * that note into the draft and enters "save" mode.
   */
  method SelectLoadsNote(e: NotesEditor, i: int)
    requires e.Valid() && UniqueIds(e.notes) && 0 <= i < |e.notes|
    requires e.activeNoteId != Some(e.notes[i].id)
    modifies e
    ensures e.notes == old(e.notes)
    ensures e.Valid() && e.isEditing && e.activeNoteId == Some(e.notes[i].id)
    ensures e.Staged() == Draft(e.notes[i].text, IsBold(e.notes[i].fontStyle), IsItalic(e.notes[i].fontStyle),
                                e.notes[i].fontStyle.fontFamily, e.notes[i].fontStyle.fontSize, e.notes[i].images)
  {
    FindUnique(e.notes, i);
    e.SelectNote(e.notes[i].id);
  }

  /**
   * Opening note `i`, toggling bold and saving flips that note's weight and
   * nothing else about the store: every other note is unchanged, and note `i`
   * keeps its id, text, images, italic flag, font and size.
   */
  method SelectToggleBoldSave(e: NotesEditor, i: int, newId: int)
    requires e.Valid() && UniqueIds(e.notes) && 0 <= i < |e.notes|
    requires e.activeNoteId != Some(e.notes[i].id)
    modifies e
    ensures e.Valid() && e.IsCleared()
    ensures |e.notes| == |old(e.notes)| && e.notes == old(e.notes)[i := e.notes[i]]
    ensures e.notes[i].id == old(e.notes[i].id)
    ensures e.notes[i].text == old(e.notes[i].text) && e.notes[i].images == old(e.notes[i].images)
    ensures IsBold(e.notes[i].fontStyle) == !IsBold(old(e.notes[i].fontStyle))
    ensures IsItalic(e.notes[i].fontStyle) == IsItalic(old(e.notes[i].fontStyle))
    ensures e.notes[i].fontStyle.fontFamily == old(e.notes[i].fontStyle.fontFamily)
    ensures e.notes[i].fontStyle.fontSize == old(e.notes[i].fontStyle.fontSize)
  {
    ghost var before := e.notes;
    ghost var n := before[i];
    SelectLoadsNote(e, i);
    e.HandleBoldToggle();
    ghost var style := DraftStyle(n.fontStyle.fontFamily, n.fontStyle.fontSize, !IsBold(n.fontStyle), IsItalic(n.fontStyle));
    e.Commit(newId);
    ReplaceUniqueExactlyOne(before, i, n.text, style, n.images);
    assert e.notes == before[i := Note(n.id, n.text, style, n.images)];
  }

  /** Deleting an id a second time leaves the store as the first delete left it. */
  method DeleteTwice(e: NotesEditor, id: int)
    requires e.Valid()
    modifies e
    ensures e.Valid()
    ensures e.notes == RemoveById(old(e.notes), id)
  {
    e.HandleDeleteNote(id);
    ghost var once := e.notes;
    e.HandleDeleteNote(id);
    RemoveIdempotent(old(e.notes), id);
    assert e.notes == once;
  }

  /** Toggling bold twice restores the flag and touches nothing else. */
  method ToggleBoldTwice(e: NotesEditor)
    modifies e
    ensures unchanged(e)
  {
    e.HandleBoldToggle();
    e.HandleBoldToggle();
  }

  /** Toggling italic twice restores the flag and touches nothing else. */
  method ToggleItalicTwice(e: NotesEditor)
    modifies e
    ensures unchanged(e)
  {
    e.HandleItalicToggle();
    e.HandleItalicToggle();
  }

  /**
   * A fresh widget, the user types "Hello" and clicks "Add": the store holds the
   * greeting and then the new note in the default Arial 16px normal style, and
   * the draft is blank again.
   */
  method TypeAndAddToFreshWidget(seedId: int, newId: int) returns (e: NotesEditor)
    ensures e.Valid() && e.IsCleared()
    ensures e.notes == [DefaultNote(seedId), Note(newId, "Hello", DefaultNoteStyle, [])]
  {
    e := new NotesEditor(seedId);
    e.HandleTextChange("Hello");
    assert !IsWhitespace("Hello"[0]);
    e.Commit(newId);
  }
}
