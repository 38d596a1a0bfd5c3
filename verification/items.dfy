/** The Item record every view works on, as the document store hands it
    to the pages (`{ id, ...data }`), and the derived values several
    components compute from it the same way. */
module Items {

  import opened Options
  import opened Text
  import opened Seqs

  /** The four capture kinds; their JavaScript spelling is `TypeName`. */
  datatype ItemType = Video | Link | Note | Playlist

  function TypeName(t: ItemType): (r: string)
    ensures r in {"video", "link", "note", "playlist"}
  {
    match t
    case Video => "video"
    case Link => "link"
    case Note => "note"
    case Playlist => "playlist"
  }

  lemma TypeNameInjective(a: ItemType, b: ItemType)
    ensures TypeName(a) == TypeName(b) <==> a == b
  {
  }

  /** One saved item. Optional fields of the document are `Option`s;
      `createdAt` is the timestamp's `toMillis()` when present. */
  datatype Item = Item(
    id: string,
    itemType: ItemType,
    title: Option<string>,
    description: Option<string>,
    url: Option<string>,
    channelTitle: Option<string>,
    domain: Option<string>,
    content: Option<string>,
    tags: Option<seq<string>>,
    isPinned: bool,
    isCompleted: bool,
    createdAt: Option<int>)

  /** `item.createdAt?.toMillis?.() || 0`. */
  function DateOf(i: Item): (d: int)
    ensures i.createdAt.Some? ==> d == i.createdAt.value
    ensures i.createdAt.None? ==> d == 0
  {
    i.createdAt.GetOr(0)
  }

  /** `item.title || ''`. */
  function TitleOf(i: Item): (t: string)
    ensures Truthy(i.title) ==> t == i.title.value
    ensures !Truthy(i.title) ==> t == []
  {
    if Truthy(i.title) then i.title.value else []
  }

  /** `item.tags || []`. */
  function TagsOf(i: Item): (t: seq<string>)
    ensures i.tags.Some? ==> t == i.tags.value
    ensures i.tags.None? ==> t == []
  {
    i.tags.GetOr([])
  }

  function Ids(items: seq<Item>): (r: seq<string>)
    ensures |r| == |items|
    ensures forall k :: 0 <= k < |items| ==> r[k] == items[k].id
  {
    seq(|items|, k requires 0 <= k < |items| => items[k].id)
  }

  /** `i => i.id !== id`. */
  function HasOtherId(id: string): Item -> bool {
    (i: Item) => i.id != id
  }

  const PreviewLength: nat := 120

  /** The note preview: the first 120 characters of the plain text, with
      `...` appended exactly when something was cut off. */
  function Preview(plain: string): (r: string)
    ensures |plain| <= PreviewLength ==> r == plain
    ensures |plain| > PreviewLength ==> r == plain[..PreviewLength] + "..."
    ensures |r| <= PreviewLength + 3
  {
    Take(plain, PreviewLength) + (if |plain| > PreviewLength then "..." else "")
  }

  /** Recomputing the preview of a preview changes nothing. */
  lemma PreviewIdempotent(plain: string)
    ensures Preview(Preview(plain)) == Preview(plain)
  {
    if |plain| > PreviewLength {
      var r := Preview(plain);
      assert r[..PreviewLength] == plain[..PreviewLength];
    }
  }
}
