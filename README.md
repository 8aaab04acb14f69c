# Notes widget: note store and editor staging, in Dafny

This project models the state machine inside the `Notes` component of a
single-page note-taking widget (`src/components/Notes.tsx`). It covers two things.
The first is the committed store: an ordered sequence of notes, each with an id,
an HTML text, a CSS style record and a list of image data URIs. The second is the
editor's staging state: the active note id, the draft text, the bold and italic
flags, the font family and size, the draft images, and the `isEditing` flag.
`isEditing` decides whether the commit button adds a new note or saves the active one.

- `text.dfy` (module `Text`) defines the whitespace set that ECMAScript's `trim`
  strips (WhiteSpace and LineTerminator), along with `TrimStart`, `TrimEnd` and
  `Trim`. It proves that `!text.trim()` is exactly `IsBlank(text)`.
- `note_store.dfy` (module `NoteStore`) holds the `Note` and `FontStyle`
  records, the seed note and its default style, and the bold/italic ↔
  `'bold'`/`'normal'`, `'italic'`/`'normal'` encoding. It also holds the pure
  sequence transformations the handlers apply: `find` (`Find`), `map`
  (`ReplaceById`) and `filter` (`RemoveById`). Their properties are proved as
  lemmas: first-match lookup, id- and order-preserving replacement, order
  preservation of removal, idempotent removal, and exactly-one removal when ids
  are distinct.
- `notes_editor.dfy` (module `Notes`) has the class `NotesEditor`. Its fields are
  the component's state, and it has one method per handler. `Valid()` is the
  invariant the handlers keep. No committed note has blank text, and the editor
  is in "save" mode only while the active id is set and present in the store.
- `scenarios.dfy` (module `Scenarios`) has client methods. They prove sequences
  of events from the handlers' contracts alone: add then re-open, re-style and
  save, delete twice, toggle twice, and type-and-add on a fresh widget.

Two inputs are parameters. The note id, which the component takes from
`Date.now()`, is the `seedId` argument of the constructor and the `newId`
argument of `HandleAddNote` and `Commit`. The image data URI, which comes from
`FileReader`, is the argument of `HandleImageLoaded`. Nothing is claimed about
id uniqueness, because the component does not guarantee it. Lemmas that need
distinct ids say so with `UniqueIds`.

The load effect (lines 42-61) is the explicit step `LoadActiveNote`. A click on
a note is `SelectNote`, which is `handleEditNote` followed by that effect.
Clicking the note that is already active sets an equal state value. The
component then does not re-render, so the effect does not run, and
`SelectNote` leaves everything unchanged.

Three behaviours of the component are worth noting:
- Selecting an id that is not in the store only clears `isEditing`. The draft
  text, flags, font, size, images and the selection itself stay as they were;
  the draft is not reset.
- Saving while the active id is missing from the store still resets the draft.
  `ReplaceAbsentId` shows that the store is unchanged in that case.
- Ids are not guaranteed distinct. `handleSaveNote` rewrites every note that
  carries the active id. The load effect reads the first one.

## Model

| member | source | states |
|---|---|---|
| `Text.TrimStart` | src/components/Notes.tsx:79 | the result is a suffix of the input that does not start with whitespace, and the dropped prefix is blank |
| `Text.TrimEnd` | src/components/Notes.tsx:79 | the result is a prefix of the input that does not end with whitespace, and the dropped suffix is blank |
| `Text.Trim` | src/components/Notes.tsx:79 | the trimmed text is empty iff the text is blank (both directions), and a non-empty result starts and ends with a non-whitespace character |
| `NoteStore.DefaultNote` | src/components/Notes.tsx:16-28 | the seed note has the given id, no images, and the Arial/16px style, which decodes to bold off and italic off and is canonical |
| `NoteStore.DraftStyle` | src/components/Notes.tsx:81-86 | the committed style keeps the draft's font and size, decodes back to exactly the draft's bold and italic flags, and uses only `bold`/`normal` and `italic`/`normal` |
| `NoteStore.StyleDecodeEncode` | src/components/Notes.tsx:46-49 | loading a canonical style into flags and building a style from them again gives back the same style |
| `NoteStore.AppendKeepsUniqueIds` | src/components/Notes.tsx:88-95 | appending a note whose id is new keeps all ids pairwise distinct |
| `NoteStore.FindIndex` | src/components/Notes.tsx:43 | the index returned is the first position holding the id, and there is none exactly when no note carries the id |
| `NoteStore.Find` | src/components/Notes.tsx:43 | the note returned carries the id and sits at the first position with that id; None exactly when no note carries it |
| `NoteStore.FindUnique` | src/components/Notes.tsx:43 | with distinct ids, looking up a note's id returns that note |
| `NoteStore.FindAfterAppend` | src/components/Notes.tsx:95 | after appending a note with a new id, lookup finds that note; lookups of ids already present are unchanged |
| `NoteStore.ReplaceById` | src/components/Notes.tsx:109-111 | length and every id are kept; notes with another id are unchanged; every note with the id takes the new text, style and images |
| `NoteStore.ReplaceUniqueExactlyOne` | src/components/Notes.tsx:109-111 | with distinct ids, saving under note `i`'s id replaces exactly position `i` with a note of that id and the new text, style and images; every other position is unchanged |
| `NoteStore.ReplaceAbsentId` | src/components/Notes.tsx:109-111 | saving under an id no note carries leaves the store unchanged |
| `NoteStore.RemoveById` | src/components/Notes.tsx:122 | no survivor carries the deleted id and the store never grows |
| `NoteStore.RemoveMembers` | src/components/Notes.tsx:122 | a note survives the delete iff it was in the store and carries another id (both directions) |
| `NoteStore.RemoveAbsentId` | src/components/Notes.tsx:122 | deleting an id no note carries leaves the store unchanged |
| `NoteStore.RemoveConcat` | src/components/Notes.tsx:122 | removal distributes over concatenation, so the survivors keep their relative order |
| `NoteStore.RemoveIdempotent` | src/components/Notes.tsx:122 | deleting the same id twice equals deleting it once |
| `NoteStore.RemoveUniqueExactlyOne` | src/components/Notes.tsx:122 | with distinct ids, deleting note `i`'s id gives exactly the store without position `i` |
| `NoteStore.RemoveKeepsNoBlankNotes` | src/components/Notes.tsx:122 | deleting from a store with no blank note leaves a store with no blank note |
| `NoteStore.RemoveKeepsOtherIds` | src/components/Notes.tsx:122-125 | an id other than the deleted one that was present stays present |
| `Notes.NotesEditor.constructor` | src/components/Notes.tsx:31-39 | initial state: the seed note alone, no selection, not editing, and an empty Arial/16px draft with flags off and no images; `Valid()` holds, so the seed text is not blank |
| `Notes.NotesEditor.HandleTextChange` | src/components/Notes.tsx:72-76 | the draft text becomes the given HTML and no other field changes |
| `Notes.NotesEditor.ResetFields` | src/components/Notes.tsx:156-166 | text empty, flags off, no images, no selection, not editing; font, size and the store are unchanged; on a store without blank notes `Valid()` holds afterwards |
| `Notes.NotesEditor.HandleAddNote` | src/components/Notes.tsx:78-97 | a blank draft changes nothing; otherwise exactly one note (new id, draft text, draft style, draft images) is appended after the unchanged earlier notes and the draft is reset, keeping font and size; `Valid()` is kept |
| `Notes.NotesEditor.HandleSaveNote` | src/components/Notes.tsx:99-115 | a blank draft or no selection changes nothing; otherwise the store becomes `ReplaceById` over the active id with the draft's text, style and images, and the draft is reset; `Valid()` is kept |
| `Notes.NotesEditor.HandleEditNote` | src/components/Notes.tsx:117-119 | only the active id changes, and it becomes the given id |
| `Notes.NotesEditor.LoadActiveNote` | src/components/Notes.tsx:42-61 | when the active id is found, the draft equals the first matching note's text, decoded flags, font, size and images, and the mode is "save"; otherwise only `isEditing` is cleared; the store and the selection never change; on a store without blank notes `Valid()` is established |
| `Notes.NotesEditor.SelectNote` | src/components/Notes.tsx:117-119 | re-selecting the active id changes nothing; otherwise the id becomes active and the load effect of lines 42-61 follows, as in `LoadActiveNote` |
| `Notes.NotesEditor.HandleDeleteNote` | src/components/Notes.tsx:121-126 | the store becomes `RemoveById` of the old store; the draft is reset iff the deleted id was the active one, otherwise selection, mode and draft are unchanged; `Valid()` is kept |
| `Notes.NotesEditor.HandleBoldToggle` | src/components/Notes.tsx:128-130 | bold is negated and no other field can change |
| `Notes.NotesEditor.HandleItalicToggle` | src/components/Notes.tsx:132-134 | italic is negated and no other field can change |
| `Notes.NotesEditor.HandleFontChange` | src/components/Notes.tsx:136-138 | the font becomes the picked value and no other field can change |
| `Notes.NotesEditor.HandleSizeChange` | src/components/Notes.tsx:140-142 | the size becomes the picked value and no other field can change |
| `Notes.NotesEditor.HandleImageLoaded` | src/components/Notes.tsx:147-151 | exactly one image is appended at the end of the draft images and no other field can change |
| `Notes.NotesEditor.Commit` | src/components/Notes.tsx:194-198 | in "save" mode it saves and otherwise it adds, with the contracts above; a blank draft changes nothing |
| `Scenarios.AddThenSelect` | src/components/Notes.tsx:43-51 | adding a non-blank draft under a new id and then selecting it reloads exactly that draft: text, flags, font, size and images |
| `Scenarios.SelectLoadsNote` | src/components/Notes.tsx:43-51 | with distinct ids, clicking note `i` (not already active) selects it, enters "save" mode and loads exactly that note's text, decoded flags, font, size and images; the store is unchanged |
| `Scenarios.SelectToggleBoldSave` | src/components/Notes.tsx:99-115 | select, toggle bold and save flips only that note's weight; every other note is unchanged, and the note keeps its id, text, images, italic flag, font and size |
| `Scenarios.DeleteTwice` | src/components/Notes.tsx:121-126 | a second delete of the same id leaves the store as the first delete left it |
| `Scenarios.ToggleBoldTwice` | src/components/Notes.tsx:128-130 | toggling bold twice leaves the whole editor unchanged |
| `Scenarios.ToggleItalicTwice` | src/components/Notes.tsx:132-134 | toggling italic twice leaves the whole editor unchanged |
| `Scenarios.TypeAndAddToFreshWidget` | src/components/Notes.tsx:78-97 | on a fresh widget, typing "Hello" and adding yields the seed note followed by a "Hello" note in the default style, with the draft cleared |

## Left out

- Rendering (`src/components/Notes.tsx:168-222`) is left out. This includes the note list, the `<select>` option lists and the image tags.
- Writes to the live editor element through `noteEditorRef` are browser side effects and are left out: `innerHTML` and the `style.*` assignments at lines 52-58, 63-70, 73-75 and 163-165. `HandleTextChange` takes the element's HTML as its argument.
- The font and size pickers offer four values each. The handlers do not check the value, so the model does not restrict it either.
- `Date.now()` is a clock read; the ids it yields are parameters. Because of that, no uniqueness of ids is claimed.
- The `FileReader` machinery in `handleImageUpload` is asynchronous foreign I/O: the file check, `readAsDataURL`, and the `typeof result === 'string'` test. Only the completion callback's append is modelled.
- Notes.NotesEditor.HandleImageLoaded: appends to the draft's current image list. The source callback appends to the list captured when the upload started. So a selection or another upload that completes in between is overwritten in the source, which the model does not capture.
- React's effect scheduling is not reproduced. The load effect also re-runs whenever `notes` changes. After a note other than the active one is deleted, React therefore reloads the active note into the draft, which discards unsaved edits. The model does not compose this automatically; calling `LoadActiveNote` after `HandleDeleteNote` gives that behaviour.
- The component has no separate deselect handler. Clearing the selection happens only through `resetFields`, which is modelled as `ResetFields`.
- `src/components/NoteList.tsx` and `src/components/App.tsx` are presentational and are not part of this model. Neither is `webpack.config.js`, which is build configuration.
- Strings are sequences of Unicode code points. JavaScript strings are UTF-16, but every character of the whitespace set is a single UTF-16 unit, so blank detection agrees.
