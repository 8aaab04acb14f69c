/**
 * The note records of the notes widget and the pure transformations its
 * handlers apply to the ordered note sequence: append, replace by id,
 * remove by id, lookup by id, and the encoding of the draft's
 * bold/italic flags as CSS `fontWeight`/`fontStyle` strings.
 */
module NoteStore {
  import opened Text

  datatype Option<+T> = None | Some(value: T)

  /** The CSS style record a note carries; `fontWeight` and `fontStyle` are free strings. */
  datatype FontStyle = FontStyle(fontFamily: string, fontSize: string, fontWeight: string, fontStyle: string)

  /** A committed note. The text is an HTML fragment and each image a data URI; both are opaque here. */
  datatype Note = Note(id: int, text: string, fontStyle: FontStyle, images: seq<string>)

  const DefaultNoteStyle: FontStyle := FontStyle("Arial", "16px", "normal", "normal")

  /** The greeting the store is seeded with. */
  const DefaultNoteText: string := "Приветствую!"

  /** The seed note; its id is a clock reading at start-up, so it is a parameter here. */
  function DefaultNote(id: int): (n: Note)
    ensures n.id == id && n.images == [] && n.fontStyle == DefaultNoteStyle
    ensures !IsBold(n.fontStyle) && !IsItalic(n.fontStyle) && CanonicalStyle(n.fontStyle)
  {
    Note(id, DefaultNoteText, DefaultNoteStyle, [])
  }

  // ---------------------------------------------------------------------------
  // Style encoding: draft flags <-> CSS strings

  /** How a loaded note's style sets the draft's bold flag. */
  predicate IsBold(st: FontStyle) {
    st.fontWeight == "bold"
  }

  /** How a loaded note's style sets the draft's italic flag. */
  predicate IsItalic(st: FontStyle) {
    st.fontStyle == "italic"
  }

  /** A style whose weight and slant are ones the editor itself writes. */
  predicate CanonicalStyle(st: FontStyle) {
    (st.fontWeight == "bold" || st.fontWeight == "normal") &&
    (st.fontStyle == "italic" || st.fontStyle == "normal")
  }

  /**
   * The style committed by add and save, built from the draft's font, size and
   * flags. Decoding it gives back exactly the flags it was built from.
   */
  function DraftStyle(font: string, size: string, bold: bool, italic: bool): (st: FontStyle)
    ensures st.fontFamily == font && st.fontSize == size
    ensures IsBold(st) == bold && IsItalic(st) == italic
    ensures CanonicalStyle(st)
  {
    FontStyle(font, size, if bold then "bold" else "normal", if italic then "italic" else "normal")
  }

  /** The other direction of the round trip: a canonical style is rebuilt from its decoded flags. */
  lemma StyleDecodeEncode(st: FontStyle)
    requires CanonicalStyle(st)
    ensures DraftStyle(st.fontFamily, st.fontSize, IsBold(st), IsItalic(st)) == st
  {
  }

  // ---------------------------------------------------------------------------
  // Ids

  predicate HasId(notes: seq<Note>, id: int) {
    exists i :: 0 <= i < |notes| && notes[i].id == id
  }

  /** No two notes share an id. The store does not enforce this: ids come from a clock. */
  predicate UniqueIds(notes: seq<Note>) {
    forall i, j :: 0 <= i < j < |notes| ==> notes[i].id != notes[j].id
  }

  /** No committed note has blank text: add and save reject a blank draft, and the seed text is not blank. */
  predicate NoBlankNotes(notes: seq<Note>) {
    forall k :: 0 <= k < |notes| ==> !IsBlank(notes[k].text)
  }

  /** Appending a note whose id is new keeps the ids pairwise distinct. */
  lemma AppendKeepsUniqueIds(notes: seq<Note>, n: Note)
    requires UniqueIds(notes) && !HasId(notes, n.id)
    ensures UniqueIds(notes + [n])
  {
    forall i, j | 0 <= i < j < |notes + [n]|
      ensures (notes + [n])[i].id != (notes + [n])[j].id
    {
      if j == |notes| {
        assert (notes + [n])[i] == notes[i];
      }
    }
  }

  // ---------------------------------------------------------------------------
  // Lookup: the first note carrying an id

  /** `i` is the position of the first note with this id. */
  predicate FirstWithId(notes: seq<Note>, id: int, i: int) {
    0 <= i < |notes| && notes[i].id == id &&
    forall j :: 0 <= j < i ==> notes[j].id != id
  }

  function FindIndex(notes: seq<Note>, id: int): (r: Option<nat>)
    ensures r.Some? ==> FirstWithId(notes, id, r.value)
    ensures r.None? <==> !HasId(notes, id)
  {
    if notes == [] then None
    else if notes[0].id == id then Some(0)
    else
      match FindIndex(notes[1..], id)
      case None => None
      case Some(k) => Some(k + 1)
  }

  /** The first note carrying `id`, or None when no note does. */
  function Find(notes: seq<Note>, id: int): (r: Option<Note>)
    ensures r.None? <==> !HasId(notes, id)
    ensures r.Some? ==> r.value.id == id && exists i :: FirstWithId(notes, id, i) && notes[i] == r.value
  {
    match FindIndex(notes, id)
    case None => None
    case Some(i) => Some(notes[i])
  }

  /** With distinct ids, looking up a note's id yields that very note. */
  lemma FindUnique(notes: seq<Note>, i: int)
    requires UniqueIds(notes) && 0 <= i < |notes|
    ensures Find(notes, notes[i].id) == Some(notes[i])
  {
    var r := FindIndex(notes, notes[i].id);
    assert r.Some?;
    assert r.value == i;
  }

  /** Appending a note with a fresh id makes it findable and leaves earlier lookups alone. */
  lemma FindAfterAppend(notes: seq<Note>, n: Note, id: int)
    ensures !HasId(notes, n.id) ==> Find(notes + [n], n.id) == Some(n)
    ensures HasId(notes, id) ==> Find(notes + [n], id) == Find(notes, id)
  {
    var s := notes + [n];
    if !HasId(notes, n.id) {
      assert s[|notes|] == n;
      var r := FindIndex(s, n.id);
      assert r.Some?;
      assert r.value == |notes|;
    }
    if HasId(notes, id) {
      var k := FindIndex(notes, id).value;
      var r := FindIndex(s, id);
      assert s[k] == notes[k];
      assert r.Some?;
      assert r.value == k;
    }
  }

  // ---------------------------------------------------------------------------
  // Replace: every note carrying the id takes the new text, style and images

  /**
   * Every note carrying `id` gets the new text, style and images and keeps its id;
   * every other note is untouched; length and order are kept.
   */
  function ReplaceById(notes: seq<Note>, id: int, text: string, style: FontStyle, images: seq<string>): (r: seq<Note>)
    ensures |r| == |notes|
    ensures forall i :: 0 <= i < |notes| ==> r[i].id == notes[i].id
    ensures forall i :: 0 <= i < |notes| && notes[i].id != id ==> r[i] == notes[i]
    ensures forall i :: 0 <= i < |notes| && notes[i].id == id ==>
      r[i].text == text && r[i].fontStyle == style && r[i].images == images
  {
    if notes == [] then []
    else
      var head := if notes[0].id == id then notes[0].(text := text, fontStyle := style, images := images) else notes[0];
      [head] + ReplaceById(notes[1..], id, text, style, images)
  }

  /** Replacing in a store without the id gives back the same store. */
  lemma ReplaceAbsentId(notes: seq<Note>, id: int, text: string, style: FontStyle, images: seq<string>)
    requires !HasId(notes, id)
    ensures ReplaceById(notes, id, text, style, images) == notes
  {
    var r := ReplaceById(notes, id, text, style, images);
    assert forall i :: 0 <= i < |notes| ==> r[i] == notes[i];
  }

  /** With distinct ids, saving over note `i`'s id rewrites exactly position `i` and keeps its id. */
  lemma ReplaceUniqueExactlyOne(notes: seq<Note>, i: int, text: string, style: FontStyle, images: seq<string>)
    requires UniqueIds(notes) && 0 <= i < |notes|
    ensures ReplaceById(notes, notes[i].id, text, style, images) == notes[i := Note(notes[i].id, text, style, images)]
  {
    var r := ReplaceById(notes, notes[i].id, text, style, images);
    var u := notes[i := Note(notes[i].id, text, style, images)];
    forall k | 0 <= k < |notes| ensures r[k] == u[k] {
      if k != i {
        assert notes[k].id != notes[i].id;
      }
    }
  }

  // ---------------------------------------------------------------------------
  // Remove: keep the notes with another id, in order

  /** Keeps the notes whose id differs from `id`, in their original order: no survivor carries `id`. */
  function RemoveById(notes: seq<Note>, id: int): (r: seq<Note>)
    ensures |r| <= |notes|
    ensures !HasId(r, id)
  {
    if notes == [] then []
    else if notes[0].id == id then RemoveById(notes[1..], id)
    else [notes[0]] + RemoveById(notes[1..], id)
  }

  /** A note survives removal exactly when it was in the store and carries another id. */
  lemma {:induction false} RemoveMembers(notes: seq<Note>, id: int, n: Note)
    ensures n in RemoveById(notes, id) <==> n in notes && n.id != id
  {
    if notes != [] {
      RemoveMembers(notes[1..], id, n);
      assert notes == [notes[0]] + notes[1..];
    }
  }

  /** Removing an id no note carries leaves the store unchanged. */
  lemma {:induction false} RemoveAbsentId(notes: seq<Note>, id: int)
    requires !HasId(notes, id)
    ensures RemoveById(notes, id) == notes
  {
    if notes != [] {
      assert notes[0].id != id;
      assert !HasId(notes[1..], id) by {
        forall i | 0 <= i < |notes[1..]| ensures notes[1..][i].id != id {
          assert notes[1..][i] == notes[i + 1];
        }
      }
      RemoveAbsentId(notes[1..], id);
      assert notes == [notes[0]] + notes[1..];
    }
  }

  /** Removal distributes over concatenation: the survivors keep their relative order. */
  lemma {:induction false} RemoveConcat(a: seq<Note>, b: seq<Note>, id: int)
    ensures RemoveById(a + b, id) == RemoveById(a, id) + RemoveById(b, id)
  {
    if a != [] {
      assert (a + b)[1..] == a[1..] + b;
      RemoveConcat(a[1..], b, id);
    } else {
      assert a + b == b;
    }
  }

  /** Removing twice is the same as removing once: a repeated delete is a no-op. */
  lemma RemoveIdempotent(notes: seq<Note>, id: int)
    ensures RemoveById(RemoveById(notes, id), id) == RemoveById(notes, id)
  {
    RemoveAbsentId(RemoveById(notes, id), id);
  }

  lemma UniqueIdsTail(notes: seq<Note>)
    requires UniqueIds(notes) && notes != []
    ensures UniqueIds(notes[1..]) && !HasId(notes[1..], notes[0].id)
  {
    var tail := notes[1..];
    forall p, q | 0 <= p < q < |tail| ensures tail[p].id != tail[q].id {
      assert tail[p] == notes[p + 1] && tail[q] == notes[q + 1];
    }
    forall k | 0 <= k < |tail| ensures tail[k].id != notes[0].id {
      assert tail[k] == notes[k + 1];
    }
  }

  /** With distinct ids, deleting a note's id removes that one note and nothing else. */
  lemma {:induction false} RemoveUniqueExactlyOne(notes: seq<Note>, i: int)
    requires UniqueIds(notes) && 0 <= i < |notes|
    ensures RemoveById(notes, notes[i].id) == notes[..i] + notes[i + 1..]
  {
    var id := notes[i].id;
    var tail := notes[1..];
    UniqueIdsTail(notes);
    if i == 0 {
      RemoveAbsentId(tail, id);
      assert notes[..0] + notes[1..] == tail;
    } else {
      assert notes[0].id != id;
      assert tail[i - 1] == notes[i];
      RemoveUniqueExactlyOne(tail, i - 1);
      assert RemoveById(tail, id) == tail[..i - 1] + tail[i..];
      assert RemoveById(notes, id) == [notes[0]] + RemoveById(tail, id);
      assert [notes[0]] + (tail[..i - 1] + tail[i..]) == notes[..i] + notes[i + 1..];
    }
  }

  /** A note with another id survives removal, so a selection other than the deleted id stays present. */
  lemma RemoveKeepsOtherIds(notes: seq<Note>, id: int, other: int)
    requires HasId(notes, other) && other != id
    ensures HasId(RemoveById(notes, id), other)
  {
    var i :| 0 <= i < |notes| && notes[i].id == other;
    var r := RemoveById(notes, id);
    RemoveMembers(notes, id, notes[i]);
    var k :| 0 <= k < |r| && r[k] == notes[i];
  }

  /** Removal keeps only notes that were already there, so a store without blank notes stays so. */
  lemma RemoveKeepsNoBlankNotes(notes: seq<Note>, id: int)
    requires NoBlankNotes(notes)
    ensures NoBlankNotes(RemoveById(notes, id))
  {
    var r := RemoveById(notes, id);
    forall k | 0 <= k < |r| ensures !IsBlank(r[k].text) {
      RemoveMembers(notes, id, r[k]);
      var j :| 0 <= j < |notes| && notes[j] == r[k];
    }
  }
}
