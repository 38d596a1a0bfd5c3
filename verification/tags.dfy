/** The tag list edited in the capture modal and in the note focus view.
    Two ways in: picking a suggested tag (capped at 20) and typing one
    (trimmed, not capped); one way out (every equal tag removed). */
module TagLists {

  import opened Text
  import opened Seqs

  const TagCap: nat := 20

  /** The capture modal's `addTag`: appended only when absent and while
      fewer than 20 tags are selected. */
  function AddSuggested(tags: seq<string>, tag: string): (r: seq<string>)
    ensures tag !in tags && |tags| < TagCap ==> r == tags + [tag]
    ensures tag in tags || |tags| >= TagCap ==> r == tags
  {
    if tag !in tags && |tags| < TagCap then tags + [tag] else tags
  }

  /** Typing a tag (`createNewTag` in the capture modal, `addTag` in the
      note view): the trimmed input is appended when non-empty and absent,
      and only then is the input cleared. The result is the new list and
      the new input. */
  function AddTyped(tags: seq<string>, input: string): (r: (seq<string>, string))
    ensures Trim(input) != [] && Trim(input) !in tags ==> r == (tags + [Trim(input)], "")
    ensures Trim(input) == [] || Trim(input) in tags ==> r == (tags, input)
  {
    var t := Trim(input);
    if t != [] && t !in tags then (tags + [t], "") else (tags, input)
  }

  /** `tags.filter(t => t !== tag)`. */
  function RemoveTag(tags: seq<string>, tag: string): (r: seq<string>)
    ensures tag !in r
    ensures forall t :: t != tag ==> (t in r <==> t in tags)
  {
    RemoveAll(tags, tag)
  }

  /** Picking suggestions never creates a duplicate and never goes past the
      cap of a list that respects it. */
  lemma AddSuggestedKeepsInvariant(tags: seq<string>, tag: string)
    requires NoDup(tags) && |tags| <= TagCap
    ensures NoDup(AddSuggested(tags, tag)) && |AddSuggested(tags, tag)| <= TagCap
  {
    if tag !in tags && |tags| < TagCap {
      AppendFreshKeepsNoDup(tags, tag);
    }
  }

  /** Typing never creates a duplicate either. */
  lemma AddTypedKeepsNoDup(tags: seq<string>, input: string)
    requires NoDup(tags)
    ensures NoDup(AddTyped(tags, input).0)
  {
    var t := Trim(input);
    if t != [] && t !in tags {
      AppendFreshKeepsNoDup(tags, t);
    }
  }

  /** Only one path is capped: typing a fresh tag into a full list still
      appends it. */
  lemma AddTypedIgnoresCap(tags: seq<string>, input: string)
    requires |tags| >= TagCap && Trim(input) != [] && Trim(input) !in tags
    ensures |AddTyped(tags, input).0| == |tags| + 1 > TagCap
    ensures AddSuggested(tags, Trim(input)) == tags
  {
  }

  /** Removal keeps the remaining tags in their order. */
  lemma RemoveTagKeepsOrder(tags: seq<string>, tag: string)
    ensures RemoveTag(tags, tag) == Filter(tags, Differs(tag))
  {
    RemoveAllIsFilter(tags, tag);
  }

  /** Removing a tag just added undoes the addition. */
  lemma RemoveUndoesAdd(tags: seq<string>, tag: string)
    requires tag !in tags && |tags| < TagCap
    ensures RemoveTag(AddSuggested(tags, tag), tag) == tags
  {
    RemoveAllAppended(tags, tag);
  }
}
