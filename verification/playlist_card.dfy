/** The playlist card (src/components/cards/PlaylistCard.jsx): its
    placeholder video count, the fallbacks it displays, and the small state
    machine that swaps in another thumbnail once the stored one fails to
    load. The request for that thumbnail is a parameter. */
module PlaylistCard {

  import opened Options
  import opened Patterns

  /** `getMockCount`: 12 without an id, otherwise from the first character's code. */
  function MockCount(itemId: Option<string>): (r: int)
    ensures !Truthy(itemId) ==> r == 12
    ensures Truthy(itemId) ==> r - 5 == (itemId.value[0] as int) % 20
    ensures 5 <= r <= 24
  {
    if !Truthy(itemId) then 12 else (itemId.value[0] as int) % 20 + 5
  }

  /** `videoCount || getMockCount(id)`. */
  function DisplayCount(videoCount: Option<int>, itemId: Option<string>): (r: int)
    ensures videoCount.Some? && videoCount.value != 0 ==> r == videoCount.value
    ensures videoCount.None? || videoCount.value == 0 ==> r == MockCount(itemId) && r >= 5
  {
    if videoCount.Some? && videoCount.value != 0 then videoCount.value else MockCount(itemId)
  }

  /** The card's thumbnail state: whether the image failed, and the
      replacement fetched since. */
  datatype ThumbState = ThumbState(imgError: bool, fallback: Option<string>)

  const Mounted := ThumbState(false, None)

  /** What is shown: the stored thumbnail until an error, then the
      replacement (none until it arrives). */
  function Shown(st: ThumbState, thumbnail: Option<string>): (r: Option<string>)
    ensures !st.imgError ==> r == thumbnail
    ensures st.imgError ==> r == st.fallback
  {
    if !st.imgError then thumbnail else st.fallback
  }

  /** The image's error handler: it records the error only while no
      replacement is present. */
  function ImageFailed(st: ThumbState): (r: ThumbState)
    ensures Truthy(st.fallback) ==> r == st
    ensures !Truthy(st.fallback) ==> r == st.(imgError := true)
  {
    if Truthy(st.fallback) then st else st.(imgError := true)
  }

  /** The effect's guard for requesting a replacement. */
  predicate WantsFallback(st: ThumbState, url: Option<string>, apiKey: Option<string>) {
    st.imgError && CardPlaylistId(url).Some? && !Truthy(st.fallback) && Truthy(apiKey)
  }

  /** The first item's thumbnails in the reply to that request. */
  datatype ItemThumbnails = ItemThumbnails(maxres: Option<string>, high: Option<string>,
                                           medium: Option<string>, defaultUrl: Option<string>)

  /** A reply arriving: with thumbnails, the replacement becomes the first
      truthy of maxres, high, medium and default; otherwise (no thumbnails,
      or the request failed) nothing changes. */
  function FallbackArrived(st: ThumbState, reply: Option<ItemThumbnails>): (r: ThumbState)
    ensures reply.None? ==> r == st
    ensures reply.Some? ==> r.imgError == st.imgError
    ensures reply.Some? && Truthy(reply.value.maxres) ==> r.fallback == reply.value.maxres
    ensures reply.Some? && !Truthy(reply.value.maxres) && Truthy(reply.value.high) ==>
      r.fallback == reply.value.high
    ensures reply.Some? && !Truthy(reply.value.maxres) && !Truthy(reply.value.high) && Truthy(reply.value.medium) ==>
      r.fallback == reply.value.medium
    ensures reply.Some? && !Truthy(reply.value.maxres) && !Truthy(reply.value.high) && !Truthy(reply.value.medium) ==>
      r.fallback == reply.value.defaultUrl
  {
    match reply
    case None => st
    case Some(t) => st.(fallback := OrElse(OrElse(OrElse(t.maxres, t.high), t.medium), t.defaultUrl))
  }

  /** Until the stored image fails the card shows it; once a truthy
      replacement is in place, later errors change nothing and no second
      request goes out. */
  lemma ThumbnailSettles(thumbnail: Option<string>, url: Option<string>, apiKey: Option<string>, reply: ItemThumbnails)
    ensures Shown(Mounted, thumbnail) == thumbnail
    ensures var st := FallbackArrived(ImageFailed(Mounted), Some(reply));
      Truthy(st.fallback) ==>
        && ImageFailed(st) == st
        && !WantsFallback(st, url, apiKey)
        && Shown(st, thumbnail) == st.fallback
  {
  }

  /** Without a playlist id in the address no replacement is requested. */
  lemma NoRequestWithoutPlaylist(st: ThumbState, url: Option<string>, apiKey: Option<string>)
    requires !Truthy(url)
    ensures !WantsFallback(st, url, apiKey)
  {
  }
}
