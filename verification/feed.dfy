/** Items of a feed and how a parsed feed entry becomes one (renderer.ts). */
module Feed {

  datatype Option<T> = None | Some(value: T)

  /** One stored feed entry. `guid` is its identity; `pubDate` is a timestamp. */
  datatype Item = Item(title: string, link: string, guid: string, feedTitle: string, pubDate: int)

  /** A configured feed: its location and an optional cap on the items shown. */
  datatype FeedConfig = FeedConfig(url: string, maxItems: Option<int>)

  /** An entry as extracted from the feed document: the text of each child element,
      or None when the element is missing. The date is already a timestamp. */
  datatype RawItem = RawItem(title: Option<string>, link: Option<string>, guid: Option<string>, pubDate: int)

  const UnknownFeed: string := "Unknown Feed"
  const NoTitle: string := "No Title"
  const NoLink: string := "#"
  const NoGuid: string := "No GUID"

  /** `element?.textContent || fallback`: a missing element and an empty text both fall back. */
  function OrElse(text: Option<string>, fallback: string): string
  {
    if text.Some? && text.value != "" then text.value else fallback
  }

  predicate Present(text: Option<string>)
  {
    text.Some? && text.value != ""
  }

  /** The feed title shared by all entries of one fetch. */
  function FeedTitle(channelTitle: Option<string>): (t: string)
    ensures t != ""
    ensures Present(channelTitle) ==> t == channelTitle.value
    ensures !Present(channelTitle) ==> t == UnknownFeed
  {
    OrElse(channelTitle, UnknownFeed)
  }

  /** Field defaults of one entry. The identity falls back from the guid text to the
      RAW link text (not to "#") and only then to "No GUID". */
  function Normalise(feedTitle: string, raw: RawItem): (it: Item)
    ensures it.title != "" && it.link != "" && it.guid != ""
    ensures it.title == (if Present(raw.title) then raw.title.value else NoTitle)
    ensures it.link == (if Present(raw.link) then raw.link.value else NoLink)
    ensures Present(raw.guid) ==> it.guid == raw.guid.value
    ensures !Present(raw.guid) && Present(raw.link) ==> it.guid == raw.link.value
    ensures !Present(raw.guid) && !Present(raw.link) ==> it.guid == NoGuid && it.link == NoLink
    ensures it.feedTitle == feedTitle && it.pubDate == raw.pubDate
  {
    Item(OrElse(raw.title, NoTitle),
         OrElse(raw.link, NoLink),
         OrElse(raw.guid, OrElse(raw.link, NoGuid)),
         feedTitle,
         raw.pubDate)
  }

  /** All entries of one fetched document, in document order. */
  function NormaliseAll(channelTitle: Option<string>, raws: seq<RawItem>): (items: seq<Item>)
    ensures |items| == |raws|
    ensures forall i :: 0 <= i < |raws| ==> items[i] == Normalise(FeedTitle(channelTitle), raws[i])
  {
    seq(|raws|, i requires 0 <= i < |raws| => Normalise(FeedTitle(channelTitle), raws[i]))
  }
}
