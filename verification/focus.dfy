/** The focus view (src/components/modals/FocusMode.jsx): which view an
    item opens in, the mark-complete toggle both views share, and the note
    edit session with its dirty check, saves and tag list. The duration
    rendering is `Clock.FormatDuration`. */
module Focus {

  import opened Options
  import opened Text
  import opened Seqs
  import opened Items
  import opened TagLists

  // ---------------------------------------------------------------------
  // Dispatch and completion

  datatype View = NoView | NoteView(note: Item) | MediaView(media: Item)

  /** `FocusMode`: nothing for no item, the editor for notes, the media
      view for every other type. */
  function Dispatch(item: Option<Item>): (v: View)
    ensures item.None? <==> v.NoView?
    ensures v.NoteView? <==> item.Some? && item.value.itemType == Note
    ensures v.MediaView? <==> item.Some? && item.value.itemType != Note
    ensures v.NoteView? ==> v.note == item.value
    ensures v.MediaView? ==> v.media == item.value
  {
    match item
    case None => NoView
    case Some(i) => if i.itemType == Note then NoteView(i) else MediaView(i)
  }

  /** The `isCompleted` value `handleMarkComplete` writes, in either view. */
  function MarkComplete(item: Item): (completed: bool)
    ensures completed != item.isCompleted
  {
    !item.isCompleted
  }

  /** Marking twice, with the first write applied, restores the status. */
  lemma MarkCompleteTwice(item: Item)
    ensures MarkComplete(item.(isCompleted := MarkComplete(item))) == item.isCompleted
  {
  }

  // ---------------------------------------------------------------------
  // The note edit session

  /** What the note view holds while it is open. */
  datatype NoteSession = NoteSession(title: string, content: string, tags: seq<string>, tagInput: string)

  /** The session as the note opens: missing fields read as empty. */
  function OpenNote(item: Item): (s: NoteSession)
    ensures s.title == TitleOf(item) && s.tags == TagsOf(item) && s.tagInput == []
    ensures item.content.Some? ==> s.content == item.content.value
    ensures item.content.None? ==> s.content == []
  {
    NoteSession(TitleOf(item), item.content.GetOr([]), TagsOf(item), [])
  }

  /** The dirty check: the session differs from the item as it was opened.
      A missing field never equals the session's value, and the serialised
      tag lists are equal exactly when the lists are. */
  predicate Dirty(s: NoteSession, atOpen: Item) {
    Some(s.title) != atOpen.title || Some(s.content) != atOpen.content || Some(s.tags) != atOpen.tags
  }

  /** A note opens dirty exactly when its title, content or tags are
      missing; a note whose title is the empty string is not. */
  lemma DirtyAtOpen(item: Item)
    ensures Dirty(OpenNote(item), item) <==> item.title.None? || item.content.None? || item.tags.None?
  {
    if item.title.Some? {
      assert TitleOf(item) == item.title.value;
    }
  }

  /** The update a note save writes. */
  datatype NoteUpdate = NoteUpdate(title: string, content: string, preview: string, tags: seq<string>)

  /** The record both the autosave and the close save write: the session's
      fields and the preview recomputed from the stripped content. */
  function SaveRecord(s: NoteSession, strip: string -> string): (u: NoteUpdate)
    ensures u.title == s.title && u.content == s.content && u.tags == s.tags
    ensures u.preview == Preview(strip(s.content))
  {
    NoteUpdate(s.title, s.content, Preview(strip(s.content)), s.tags)
  }

  /** The debounced autosave, once it fires: a write exactly when dirty. */
  function Autosave(s: NoteSession, atOpen: Item, strip: string -> string): (w: Option<NoteUpdate>)
    ensures w.Some? <==> Dirty(s, atOpen)
    ensures w.Some? ==> w.value == SaveRecord(s, strip)
  {
    if Dirty(s, atOpen) then Some(SaveRecord(s, strip)) else None
  }

  /** What closing did: the write it attempted, and that it closed. */
  datatype CloseOutcome = CloseOutcome(written: Option<NoteUpdate>, closed: bool)

  /** `handleClose`: writes when dirty, and closes whether or not the
      write succeeds. */
  function HandleClose(s: NoteSession, atOpen: Item, strip: string -> string): (r: CloseOutcome)
    ensures r.closed
    ensures r.written.Some? <==> Dirty(s, atOpen)
    ensures r.written.Some? ==> r.written.value == SaveRecord(s, strip)
  {
    CloseOutcome(Autosave(s, atOpen, strip), true)
  }

  /** The baseline never advances: an autosave does not make the session
      clean, so closing afterwards writes the same record again. */
  lemma SaveDoesNotClean(s: NoteSession, atOpen: Item, strip: string -> string)
    requires Autosave(s, atOpen, strip).Some?
    ensures HandleClose(s, atOpen, strip).written == Autosave(s, atOpen, strip)
    ensures Dirty(s, atOpen)
  {
  }

  /** Closing a complete note without edits writes nothing. */
  lemma UntouchedCompleteNoteWritesNothing(item: Item, strip: string -> string)
    requires item.title.Some? && item.content.Some? && item.tags.Some?
    ensures HandleClose(OpenNote(item), item, strip).written.None?
  {
    DirtyAtOpen(item);
  }

  /** Every stored preview is a fixed point of the preview rule. */
  lemma SavedPreviewStable(s: NoteSession, strip: string -> string)
    ensures Preview(SaveRecord(s, strip).preview) == SaveRecord(s, strip).preview
  {
    PreviewIdempotent(strip(s.content));
  }

  /** The note view's `addTag`: trimmed, non-empty, absent, no cap. */
  function NoteAddTag(s: NoteSession): (r: NoteSession)
    ensures (r.tags, r.tagInput) == AddTyped(s.tags, s.tagInput)
    ensures r.title == s.title && r.content == s.content
  {
    var added := AddTyped(s.tags, s.tagInput);
    s.(tags := added.0, tagInput := added.1)
  }

  /** The note view's `removeTag`. */
  function NoteRemoveTag(s: NoteSession, tag: string): (r: NoteSession)
    ensures r.tags == RemoveTag(s.tags, tag)
    ensures r.title == s.title && r.content == s.content && r.tagInput == s.tagInput
  {
    s.(tags := RemoveTag(s.tags, tag))
  }

  /** Typing a fresh tag into a complete note's session makes it dirty,
      and removing that tag again makes it clean. */
  lemma TagEditRoundTrip(item: Item, tag: string)
    requires item.title.Some? && item.content.Some? && item.tags.Some?
    requires tag != [] && Trim(tag) == tag && tag !in item.tags.value
    ensures Dirty(NoteAddTag(OpenNote(item).(tagInput := tag)), item)
    ensures !Dirty(NoteRemoveTag(NoteAddTag(OpenNote(item).(tagInput := tag)), tag), item)
  {
    var opened0 := OpenNote(item);
    assert opened0.tags == item.tags.value;
    var typed := opened0.(tagInput := tag);
    assert AddTyped(typed.tags, typed.tagInput) == (item.tags.value + [tag], "");
    var added := NoteAddTag(typed);
    assert added.tags == item.tags.value + [tag];
    assert |added.tags| != |item.tags.value|;
    assert Some(added.tags) != item.tags;
    var removed := NoteRemoveTag(added, tag);
    RemoveAllAppended(item.tags.value, tag);
    assert removed.tags == item.tags.value;
    assert removed.title == opened0.title && removed.content == opened0.content;
    DirtyAtOpen(item);
  }
}
