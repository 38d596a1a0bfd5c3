/** The capture modal (src/components/modals/SmartCaptureModal.jsx): the
    form state, URL-driven tab switching, the tag list, validation, the
    record it writes, the metadata merge, and what saving and closing do.
    The markup-to-text stripping, the host-name parser, the metadata
    request and the store write are parameters. */
module Capture {

  import opened Options
  import opened Text
  import opened Seqs
  import opened Items
  import opened TagLists
  import opened Patterns
  import YouTube

  /** The modal's form state. The last five fields hold fetched metadata. */
  datatype Draft = Draft(
    tab: ItemType,
    url: string,
    noteContent: string,
    whySaved: string,
    title: string,
    tags: seq<string>,
    tagInput: string,
    images: seq<string>,
    thumbnail: Option<string>,
    duration: nat,
    videoCount: Option<int>,
    channelTitle: string,
    description: string)

  /** The state on first render with the given initial tab. */
  function Initial(tab: ItemType): (d: Draft)
    ensures d.url == [] && d.title == [] && d.tags == [] && d.images == []
    ensures d.thumbnail == Some([]) && d.duration == 0 && d.videoCount == Some(0)
  {
    Draft(tab, [], [], [], [], [], [], [], Some([]), 0, Some(0), [], [])
  }

  // ---------------------------------------------------------------------
  // Tab selection

  /** The tab a pasted or typed address selects, if any: the video pattern
      first, then the playlist pattern, then any web address. */
  function DetectTab(value: string): (r: Option<ItemType>)
    ensures r == Some(Video) <==> CaptureVideoId(value).Some?
    ensures r == Some(Playlist) <==> CaptureVideoId(value).None? && PlaylistId(value).Some?
    ensures r == Some(Link) <==> CaptureVideoId(value).None? && PlaylistId(value).None? && IsWebAddress(value)
    ensures r != Some(Note)
  {
    if CaptureVideoId(value).Some? then Some(Video)
    else if PlaylistId(value).Some? then Some(Playlist)
    else if IsWebAddress(value) then Some(Link)
    else None
  }

  /** `handleUrlChange`: the value is always stored; the tab changes only
      when some pattern recognises it. */
  function HandleUrlChange(d: Draft, value: string): (r: Draft)
    ensures r.url == value
    ensures DetectTab(value).Some? ==> r.tab == DetectTab(value).value
    ensures DetectTab(value).None? ==> r.tab == d.tab
    ensures r.(url := d.url, tab := d.tab) == d
  {
    d.(url := value, tab := match DetectTab(value) case Some(t) => t case None => d.tab)
  }

  /** Without a `y` there is no video match. */
  lemma NoVideoWithoutY(s: string)
    requires 'y' !in s
    ensures CaptureVideoId(s).None?
  {
    assert s[..|s|] == s;
    NoVideoBefore(s, |s|);
    assert VideoIdAt(s, |s|).None? by {
      assert s[|s|..] == [];
    }
  }

  /** Without `?` or `&` there is no playlist match. */
  lemma NoPlaylistWithoutQuery(s: string)
    requires '?' !in s && '&' !in s
    ensures PlaylistId(s).None?
  {
    forall p: nat | p <= |s|
      ensures PlaylistIdAt(s, p).None?
    {
      if p < |s| {
        assert s[p] in s;
      }
    }
  }

  /** Pasting a watch address selects the video tab. */
  lemma WatchAddressSelectsVideo(d: Draft, id: string)
    requires |id| == VideoIdLength && All(id, IdChar)
    ensures HandleUrlChange(d, "https://www." + WatchPrefix + id).tab == Video
  {
    assert 'y' !in "https://www.";
    CanonicalAddressId("https://www.", WatchPrefix, id, []);
    assert "https://www." + WatchPrefix + id + [] == "https://www." + WatchPrefix + id;
  }

  /** A playlist parameter on an address without `y` selects the
      playlist tab. */
  lemma ListAddressSelectsPlaylist(d: Draft, pre: string, id: string)
    requires 'y' !in pre && '?' !in pre && '&' !in pre
    requires id != [] && All(id, IdChar) && 'y' !in id
    ensures HandleUrlChange(d, pre + "?" + ListKey + id).tab == Playlist
  {
    var s := pre + "?" + ListKey + id;
    assert 'y' !in s by {
      assert s == pre + ("?" + ListKey) + id;
      assert 'y' !in "?" + ListKey;
    }
    NoVideoWithoutY(s);
    ListParameterId(pre, '?', id, []);
    assert pre + ['?'] + ListKey + id + [] == s;
  }

  /** Any other web address with neither `y` nor a query selects the link
      tab; text that is no address leaves the tab alone. */
  lemma PlainAddressSelectsLink(d: Draft, s: string)
    requires 'y' !in s && '?' !in s && '&' !in s
    ensures IsWebAddress(s) ==> HandleUrlChange(d, s).tab == Link
    ensures !IsWebAddress(s) ==> HandleUrlChange(d, s).tab == d.tab
  {
    NoVideoWithoutY(s);
    NoPlaylistWithoutQuery(s);
  }

  // ---------------------------------------------------------------------
  // Tags

  /** `addTag`, `createNewTag` and `removeTag` on the draft. */
  function PickTag(d: Draft, tag: string): (r: Draft)
    ensures r == d.(tags := AddSuggested(d.tags, tag))
  {
    d.(tags := AddSuggested(d.tags, tag))
  }

  function TypeTag(d: Draft): (r: Draft)
    ensures (r.tags, r.tagInput) == AddTyped(d.tags, d.tagInput)
    ensures r.(tags := d.tags, tagInput := d.tagInput) == d
  {
    var (tags, input) := AddTyped(d.tags, d.tagInput);
    d.(tags := tags, tagInput := input)
  }

  function DropTag(d: Draft, tag: string): (r: Draft)
    ensures r == d.(tags := RemoveTag(d.tags, tag))
  {
    d.(tags := RemoveTag(d.tags, tag))
  }

  // ---------------------------------------------------------------------
  // Validation

  datatype Verdict = Accepted | Rejected(message: string)

  /** Note content that counts as nothing: blank once trimmed, or the
      editor's empty paragraph. */
  predicate EmptyNoteContent(content: string) {
    Trim(content) == [] || content == "<p></p>"
  }

  /** `validateForm`, with the message it shows when it refuses. */
  function Validate(d: Draft): (r: Verdict)
    ensures d.tab == Note ==>
      (r.Accepted? <==> Trim(d.title) != [] && (!EmptyNoteContent(d.noteContent) || d.images != []))
    ensures d.tab != Note ==> (r.Accepted? <==> Trim(d.url) != [] && IsWebAddress(d.url))
    ensures d.tab == Note && Trim(d.title) == [] ==> r == Rejected("Please enter a title for your note")
    ensures d.tab == Note && Trim(d.title) != [] && r.Rejected? ==>
      r.message == "Please write some content or add images"
    ensures d.tab != Note && Trim(d.url) == [] ==> r == Rejected("Please enter a URL for the " + TypeName(d.tab))
    ensures d.tab != Note && Trim(d.url) != [] && r.Rejected? ==>
      r.message == "Please enter a valid URL starting with http:// or https://"
  {
    if d.tab == Note then
      if Trim(d.title) == [] then Rejected("Please enter a title for your note")
      else if EmptyNoteContent(d.noteContent) && d.images == [] then Rejected("Please write some content or add images")
      else Accepted
    else if Trim(d.url) == [] then Rejected("Please enter a URL for the " + TypeName(d.tab))
    else if !IsWebAddress(d.url) then Rejected("Please enter a valid URL starting with http:// or https://")
    else Accepted
  }

  /** The trim check is implied by the address check, so a non-note is
      accepted exactly when its address is a web address. */
  lemma AddressCheckSubsumesBlank(d: Draft)
    requires d.tab != Note
    ensures Validate(d).Accepted? <==> IsWebAddress(d.url)
  {
    if IsWebAddress(d.url) {
      assert !IsSpace(d.url[0]) by {
        assert d.url[0] == 'h';
      }
      TrimEmptyIffAllSpace(d.url);
    }
  }

  /** Images rescue an empty note body, but never a missing title. */
  lemma ImagesRescueEmptyNote(d: Draft)
    requires d.tab == Note && !AllSpace(d.title) && d.images != []
    ensures Validate(d).Accepted?
  {
    TrimEmptyIffAllSpace(d.title);
  }

  // ---------------------------------------------------------------------
  // The record written

  /** The type-specific field of a media record. */
  datatype Extra = VideoExtra(duration: nat) | PlaylistExtra(videoCount: Option<int>) | LinkExtra(domain: string)

  datatype NewItem =
    | NoteRecord(tags: seq<string>, title: string, content: string, preview: string, images: seq<string>)
    | MediaRecord(itemType: ItemType, tags: seq<string>, url: string, title: string, thumbnail: Option<string>,
                  channelTitle: string, description: string, whySaved: string, extra: Extra)

  /** `hostname.replace('www.', '')`, or `Unknown` when the address does
      not parse. */
  function LinkDomain(url: string, hostname: string -> Option<string>): (r: string)
    ensures hostname(url).None? ==> r == "Unknown"
    ensures hostname(url).Some? && !Contains(hostname(url).value, "www.") ==> r == hostname(url).value
    ensures hostname(url).Some? && Contains(hostname(url).value, "www.") ==> var h := hostname(url).value;
      exists i :: 0 <= i <= |h| - 4 && h[i..i + 4] == "www." && r == h[..i] + h[i + 4..]
        && forall k :: 0 <= k < i ==> !("www." <= h[k..])
  {
    match hostname(url)
    case None => "Unknown"
    case Some(h) =>
      ReplaceFirstDeletes(h, "www.");
      ReplaceFirst(h, "www.", "")
  }

  /** `prepareItemData`. */
  function PrepareItemData(d: Draft, strip: string -> string, hostname: string -> Option<string>): (r: NewItem)
    ensures r.NoteRecord? <==> d.tab == Note
    ensures r.tags == d.tags
    ensures r.NoteRecord? ==>
      && r.title == d.title && r.content == d.noteContent
      && r.preview == Preview(strip(d.noteContent)) && r.images == d.images
    ensures r.MediaRecord? ==>
      && r.itemType == d.tab && r.url == d.url && r.whySaved == Trim(d.whySaved)
      && (d.title != [] ==> r.title == d.title) && (d.title == [] ==> r.title == "Untitled")
      && r.thumbnail == d.thumbnail && r.channelTitle == d.channelTitle && r.description == d.description
    ensures r.MediaRecord? ==>
      && (r.extra.VideoExtra? <==> d.tab == Video)
      && (r.extra.PlaylistExtra? <==> d.tab == Playlist) && (r.extra.LinkExtra? <==> d.tab == Link)
    ensures r.MediaRecord? && r.extra.VideoExtra? ==> r.extra.duration == d.duration
    ensures r.MediaRecord? && r.extra.PlaylistExtra? ==> r.extra.videoCount == d.videoCount
    ensures r.MediaRecord? && r.extra.LinkExtra? ==> r.extra.domain == LinkDomain(d.url, hostname)
  {
    if d.tab == Note then
      NoteRecord(d.tags, d.title, d.noteContent, Preview(strip(d.noteContent)), d.images)
    else
      var extra := match d.tab
        case Video => VideoExtra(d.duration)
        case Playlist => PlaylistExtra(d.videoCount)
        case _ => LinkExtra(LinkDomain(d.url, hostname));
      MediaRecord(d.tab, d.tags, d.url, if d.title != [] then d.title else "Untitled", d.thumbnail,
                  d.channelTitle, d.description, Trim(d.whySaved), extra)
  }

  /** The stored preview is what a reader of the record would recompute. */
  lemma NotePreviewStable(d: Draft, strip: string -> string, hostname: string -> Option<string>)
    requires d.tab == Note
    ensures Preview(PrepareItemData(d, strip, hostname).preview) == PrepareItemData(d, strip, hostname).preview
  {
    PreviewIdempotent(strip(d.noteContent));
  }

  // ---------------------------------------------------------------------
  // Metadata

  /** The request the debounced effect sends once it fires, if any: only on
      the video or playlist tab, with a non-empty address the tab's pattern
      recognises. */
  datatype MetadataRequest = VideoRequest(videoId: string) | PlaylistRequest(playlistId: string)

  function RequestFor(d: Draft): (r: Option<MetadataRequest>)
    ensures d.url == [] ==> r.None?
    ensures r.Some? && r.value.VideoRequest? ==> d.tab == Video && CaptureVideoId(d.url) == Some(r.value.videoId)
    ensures r.Some? && r.value.PlaylistRequest? ==> d.tab == Playlist && PlaylistId(d.url) == Some(r.value.playlistId)
    ensures d.url != [] && d.tab == Video && CaptureVideoId(d.url).Some? ==> r.Some?
    ensures d.url != [] && d.tab == Playlist && PlaylistId(d.url).Some? ==> r.Some?
  {
    if d.url == [] then None
    else if d.tab == Video then
      match CaptureVideoId(d.url)
      case Some(id) => Some(VideoRequest(id))
      case None => None
    else if d.tab == Playlist then
      match PlaylistId(d.url)
      case Some(id) => Some(PlaylistRequest(id))
      case None => None
    else None
  }

  /** The title merge: a title the user has typed survives. */
  function KeepTitle(current: string, fetched: string): (r: string)
    ensures current != [] ==> r == current
    ensures current == [] ==> r == fetched
  {
    if current != [] then current else fetched
  }

  /** The video reply merged into the draft (`null` changes nothing). */
  function MergeVideo(d: Draft, details: Option<YouTube.VideoDetails>): (r: Draft)
    ensures details.None? ==> r == d
    ensures details.Some? ==> var v := details.value;
      && r.title == KeepTitle(d.title, v.title)
      && r.thumbnail == v.thumbnail && r.duration == v.duration && r.channelTitle == v.channelTitle
      && r.description == (if Truthy(v.description) then v.description.value else [])
      && r.(title := d.title, thumbnail := d.thumbnail, duration := d.duration,
            channelTitle := d.channelTitle, description := d.description) == d
  {
    match details
    case None => d
    case Some(v) =>
      d.(title := KeepTitle(d.title, v.title), thumbnail := v.thumbnail, duration := v.duration,
         channelTitle := v.channelTitle, description := if Truthy(v.description) then v.description.value else [])
  }

  /** The playlist reply merged into the draft: no description is taken. */
  function MergePlaylist(d: Draft, details: Option<YouTube.PlaylistDetails>): (r: Draft)
    ensures details.None? ==> r == d
    ensures r.description == d.description
    ensures details.Some? ==> var p := details.value;
      && r.title == KeepTitle(d.title, p.title)
      && r.thumbnail == p.thumbnail && r.videoCount == p.videoCount && r.channelTitle == p.channelTitle
      && r.(title := d.title, thumbnail := d.thumbnail, videoCount := d.videoCount,
            channelTitle := d.channelTitle) == d
  {
    match details
    case None => d
    case Some(p) =>
      d.(title := KeepTitle(d.title, p.title), thumbnail := p.thumbnail, videoCount := p.videoCount,
         channelTitle := p.channelTitle)
  }

  /** A reply arriving twice leaves the draft as one arrival did, and a
      typed title is never replaced. */
  lemma MergeIdempotent(d: Draft, v: Option<YouTube.VideoDetails>, p: Option<YouTube.PlaylistDetails>)
    ensures MergeVideo(MergeVideo(d, v), v) == MergeVideo(d, v)
    ensures MergePlaylist(MergePlaylist(d, p), p) == MergePlaylist(d, p)
    ensures d.title != [] ==> MergeVideo(d, v).title == d.title && MergePlaylist(d, p).title == d.title
  {
  }

  /** From the API's reply to the form: the channel and description the
      form shows are the ones of the first resource's snippet, and an
      untitled draft takes the snippet's title. */
  lemma FetchedVideoFillsForm(d: Draft, apiKey: Option<string>, response: YouTube.Response<YouTube.VideoResource>)
    requires Truthy(apiKey) && YouTube.FirstItem(response).Some?
    ensures var sn := YouTube.FirstItem(response).value.snippet;
      var r := MergeVideo(d, YouTube.FetchVideoDetails(apiKey, response).details);
      && r.channelTitle == sn.channelTitle
      && r.description == (if Truthy(sn.description) then sn.description.value else [])
      && (d.title == [] ==> r.title == sn.title)
  {
  }

  /** The same path for playlists: the channel comes from the snippet and
      the description of the form is left as it was. */
  lemma FetchedPlaylistFillsForm(d: Draft, apiKey: Option<string>, response: YouTube.Response<YouTube.PlaylistResource>)
    requires Truthy(apiKey) && YouTube.FirstItem(response).Some?
    ensures var p := YouTube.FirstItem(response).value;
      var r := MergePlaylist(d, YouTube.FetchPlaylistDetails(apiKey, response).details);
      && r.channelTitle == p.snippet.channelTitle
      && r.videoCount == p.itemCount
      && r.description == d.description
      && (d.title == [] ==> r.title == p.snippet.title)
  {
  }

  // ---------------------------------------------------------------------
  // Resetting, opening and saving

  /** `resetForm`: the inputs are cleared; the tab and the fetched
      metadata stay. */
  function ResetForm(d: Draft): (r: Draft)
    ensures r.url == [] && r.noteContent == [] && r.whySaved == [] && r.title == []
    ensures r.tags == [] && r.tagInput == [] && r.images == []
    ensures r.tab == d.tab && r.thumbnail == d.thumbnail && r.duration == d.duration
      && r.videoCount == d.videoCount && r.channelTitle == d.channelTitle && r.description == d.description
  {
    d.(url := [], noteContent := [], whySaved := [], title := [], tags := [], tagInput := [], images := [])
  }

  lemma ResetIdempotent(d: Draft)
    ensures ResetForm(ResetForm(d)) == ResetForm(d)
    ensures Validate(ResetForm(d)).Rejected?
  {
    TrimEmptyIffAllSpace([]);
  }

  /** The open/close effect: opening selects the requested tab, or video
      when none is given; closing resets the form. */
  function OpenChanged(d: Draft, isOpen: bool, initialTab: Option<ItemType>): (r: Draft)
    ensures isOpen && initialTab.Some? ==> r == d.(tab := initialTab.value)
    ensures isOpen && initialTab.None? ==> r == d.(tab := Video)
    ensures !isOpen ==> r == ResetForm(d)
  {
    if isOpen then d.(tab := initialTab.GetOr(Video)) else ResetForm(d)
  }

  /** What `handleSave` did: the draft afterwards, the record it tried to
      write, and whether the modal was closed. */
  datatype SaveOutcome = SaveOutcome(draft: Draft, written: Option<NewItem>, closed: bool)

  /** `handleSave`. `signedIn` is whether a user is present and
      `writeSucceeds` the outcome of the store write. */
  function HandleSave(d: Draft, signedIn: bool, writeSucceeds: bool,
                      strip: string -> string, hostname: string -> Option<string>): (r: SaveOutcome)
    ensures !signedIn || Validate(d).Rejected? ==> r == SaveOutcome(d, None, false)
    ensures signedIn && Validate(d).Accepted? ==> r.written == Some(PrepareItemData(d, strip, hostname))
    ensures r.closed <==> signedIn && Validate(d).Accepted? && writeSucceeds
    ensures r.closed ==> r.draft == ResetForm(d)
    ensures !r.closed ==> r.draft == d
  {
    if !signedIn || Validate(d).Rejected? then SaveOutcome(d, None, false)
    else
      var record := PrepareItemData(d, strip, hostname);
      if writeSucceeds then SaveOutcome(ResetForm(d), Some(record), true)
      else SaveOutcome(d, Some(record), false)
  }

  /** Whatever the store does, saving twice in a row after a success writes
      nothing the second time: the reset form no longer validates. */
  lemma NoDoubleSave(d: Draft, signedIn: bool, ok1: bool, ok2: bool,
                     strip: string -> string, hostname: string -> Option<string>)
    ensures HandleSave(d, signedIn, ok1, strip, hostname).closed ==>
      HandleSave(HandleSave(d, signedIn, ok1, strip, hostname).draft, signedIn, ok2, strip, hostname).written.None?
  {
    ResetIdempotent(d);
  }
}
