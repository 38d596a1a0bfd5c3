/** The video card (src/components/cards/VideoCard.jsx): the id it reads
    from the address, the thumbnail and duration it falls back to, and the
    placeholder duration derived from the item's document id. The
    rendering of the duration is `Clock.MinutesAndSeconds`. */
module VideoCard {

  import opened Options
  import opened Text
  import opened Patterns
  import opened Clock

  /** `getMockDuration`: 600 without an id, otherwise minutes from the
      first character's code and seconds from the last one's. */
  function MockDuration(itemId: Option<string>): (r: nat)
    ensures !Truthy(itemId) ==> r == 600
    ensures Truthy(itemId) ==> var id := itemId.value;
      r / 60 == (id[0] as int) % 17 && r % 60 == (id[|id| - 1] as int) % 60
    ensures r <= 1019
  {
    if !Truthy(itemId) then 600
    else
      var id := itemId.value;
      (id[0] as int) % 17 * 60 + (id[|id| - 1] as int) % 60
  }

  /** The placeholder is not kept between three and twenty minutes: an id
      whose one character has a code divisible by 17 gives under a minute. */
  lemma MockDurationCanBeShort()
    ensures MockDuration(Some("U")) == 25
    ensures MinutesAndSeconds(MockDuration(Some("U"))) == "0:25"
  {
    assert ('U' as int) == 85;
    assert NatToString(0) == "0" && NatToString(25) == "25";
    assert NatToString(2) == "2" && NatToString(5) == "5";
  }

  /** The thumbnail shown: the stored one, else YouTube's `hqdefault`
      image for the id read from the address, else none. */
  function DisplayThumbnail(thumbnail: Option<string>, url: Option<string>): (r: Option<string>)
    ensures Truthy(thumbnail) ==> r == thumbnail
    ensures !Truthy(thumbnail) && CardVideoId(url).Some? ==>
      r == Some("https://img.youtube.com/vi/" + CardVideoId(url).value + "/hqdefault.jpg")
    ensures !Truthy(thumbnail) && CardVideoId(url).None? ==> r.None?
  {
    if Truthy(thumbnail) then thumbnail
    else match CardVideoId(url)
      case Some(v) => Some("https://img.youtube.com/vi/" + v + "/hqdefault.jpg")
      case None => None
  }

  /** The duration shown: the stored one unless it is missing or 0. */
  function DisplayDuration(duration: Option<nat>, itemId: Option<string>): (r: nat)
    ensures duration.Some? && duration.value != 0 ==> r == duration.value
    ensures duration.None? || duration.value == 0 ==> r == MockDuration(itemId)
  {
    if duration.Some? && duration.value != 0 then duration.value else MockDuration(itemId)
  }

  /** The badge reads back as the duration shown, stored or placeholder. */
  lemma BadgeShowsDuration(duration: Option<nat>, itemId: Option<string>)
    ensures ClockSeconds(MinutesAndSeconds(DisplayDuration(duration, itemId))) == Some(DisplayDuration(duration, itemId))
    ensures duration.Some? && duration.value != 0 ==>
      ClockSeconds(MinutesAndSeconds(DisplayDuration(duration, itemId))) == duration
  {
    MinutesAndSecondsRoundTrip(DisplayDuration(duration, itemId));
  }

  /** An address with a canonical watch path gets the `hqdefault` image of
      its id when no thumbnail is stored. */
  lemma WatchAddressThumbnail(pre: string, id: string)
    requires OneLine(pre + "watch?v=" + id) && |id| == 11 && FreeOfSeparators(id)
    ensures DisplayThumbnail(None, Some(pre + "watch?v=" + id)) == Some("https://img.youtube.com/vi/" + id + "/hqdefault.jpg")
  {
    CardWatchAddressId(pre, id);
  }
}
