/**
 * `src/models.rs`: the uniform feed model and the conversions from the two
 * source formats into it.
 */
module Models {
  import opened Wrappers
  import opened Errors
  import opened Chrono
  import RssLib
  import AtomLib
  import opened FilterMaps

  /** A document as a parser library produced it; exactly one of the two formats. */
  datatype FeedSource = Atom(atomFeed: AtomLib.Feed) | Rss(rssChannel: RssLib.Channel)

  /** The format a feed was read from. */
  datatype FeedType = Atom | Rss

  /** An opaque identifier. */
  datatype Uuid = Uuid(bits: nat)

  /**
   * The ids `Uuid::new_v4()` hands out: the item at source position `i` is
   * given `ids(i)`. The generator is random, so every property below holds
   * for any supply.
   */
  type IdSupply = nat -> Uuid

  /** One entry of a feed; `content` is kept in memory but never serialised. */
  datatype FeedItem = FeedItem(
    id: Uuid,
    title: string,
    url: string,
    summary: Option<string>,
    content: Option<string>)

  /** A normalised feed. */
  datatype Feed = Feed(
    id: Uuid,
    title: string,
    url: string,
    sourceUpdatedAt: Option<DateTime>,
    feedType: FeedType,
    feedItems: seq<FeedItem>)

  /** An rss item can be converted exactly when it has both a title and a link. */
  predicate RssItemConvertible(item: RssLib.Item) {
    item.title.Some? && item.link.Some?
  }

  /** An atom entry can be converted exactly when it has at least one link. */
  predicate AtomEntryConvertible(entry: AtomLib.Entry) {
    |entry.links| > 0
  }

  /** `TryFrom<rss::Item> for FeedItem`. */
  function ItemFromRssItem(item: RssLib.Item, id: Uuid): (r: Result<FeedItem, AppError>)
    ensures r.Success? <==> RssItemConvertible(item)
    ensures item.title.None? ==> r == Failure(ParseFeedError(MissingRssTitle))
    ensures item.title.Some? && item.link.None? ==> r == Failure(ParseFeedError(MissingRssUrl))
    ensures r.Success? ==>
              && r.value.id == id
              && Some(r.value.title) == item.title
              && Some(r.value.url) == item.link
              && r.value.summary == item.description
              && r.value.content == item.content
  {
    var title :- item.title.ToResult(ParseFeedError(MissingRssTitle));
    var url :- item.link.ToResult(ParseFeedError(MissingRssUrl));
    Success(FeedItem(id, title, url, item.description, item.content))
  }

  /** `TryFrom<atom_syndication::Entry> for FeedItem`. */
  function ItemFromAtomEntry(entry: AtomLib.Entry, id: Uuid): (r: Result<FeedItem, AppError>)
    ensures r.Success? <==> AtomEntryConvertible(entry)
    ensures r.Failure? ==> r.error == ParseFeedError(MissingAtomLink)
    ensures r.Success? ==>
              && r.value.id == id
              && r.value.title == entry.title.value
              && r.value.url == entry.links[0].href
              && (r.value.summary.Some? <==> entry.summary.Some?)
              && (entry.summary.Some? ==> r.value.summary.value == entry.summary.value.value)
              && (r.value.content.Some? <==> entry.content.Some? && entry.content.value.value.Some?)
              && (r.value.content.Some? ==> r.value.content.value == entry.content.value.value.value)
  {
    if |entry.links| == 0 then Failure(ParseFeedError(MissingAtomLink))
    else
      var link := entry.links[0];
      var summary := entry.summary.Map((s: AtomLib.Text) => s.value);
      var content := entry.content.AndThen((c: AtomLib.Content) => c.value);
      Success(FeedItem(id, entry.title.value, link.href, summary, content))
  }

  /** The per-item step of the rss filter-map: failures are discarded with `.ok()`. */
  function RssItemStep(ids: IdSupply): ((nat, RssLib.Item)) -> Option<FeedItem> {
    (p: (nat, RssLib.Item)) => ItemFromRssItem(p.1, ids(p.0)).ToOption()
  }

  /** The per-entry step of the atom filter-map: failures are discarded with `.ok()`. */
  function AtomEntryStep(ids: IdSupply): ((nat, AtomLib.Entry)) -> Option<FeedItem> {
    (p: (nat, AtomLib.Entry)) => ItemFromAtomEntry(p.1, ids(p.0)).ToOption()
  }

  /** The build date, when present and readable by `parse`; a parse failure is swallowed. */
  function RssUpdatedAt(lastBuildDate: Option<string>, parse: DateParser): Option<DateTime> {
    match lastBuildDate
    case Some(text) => parse(text)
    case None => None
  }

  /** `TryFrom<rss::Channel> for Feed`: never fails, items that fail are dropped. */
  function FeedFromRssChannel(channel: RssLib.Channel, parse: DateParser, ids: IdSupply, feedId: Uuid)
    : (r: Result<Feed, AppError>)
    ensures r.Success?
    ensures r.value.id == feedId
    ensures r.value.title == channel.title
    ensures r.value.url == channel.link
    ensures r.value.feedType == FeedType.Rss
    ensures r.value.sourceUpdatedAt.Some? <==>
              channel.lastBuildDate.Some? && parse(channel.lastBuildDate.value).Some?
    ensures r.value.sourceUpdatedAt.Some? ==>
              r.value.sourceUpdatedAt == parse(channel.lastBuildDate.value)
    ensures |r.value.feedItems| <= |channel.items|
  {
    var sourceUpdatedAt := RssUpdatedAt(channel.lastBuildDate, parse);
    var feedItems := FilterMap(Indexed(channel.items), RssItemStep(ids));
    Success(Feed(feedId, channel.title, channel.link, sourceUpdatedAt, FeedType.Rss, feedItems))
  }

  /** `TryFrom<atom_syndication::Feed> for Feed`: a feed without a link is an error. */
  function FeedFromAtomFeed(atomFeed: AtomLib.Feed, ids: IdSupply, feedId: Uuid)
    : (r: Result<Feed, AppError>)
    ensures r.Failure? <==> |atomFeed.links| == 0
    ensures r.Failure? ==> r.error == ParseFeedError(MissingAtomLink)
    ensures r.Success? ==>
              && r.value.id == feedId
              && r.value.title == atomFeed.title.value
              && r.value.url == atomFeed.links[0].href
              && r.value.sourceUpdatedAt == Some(atomFeed.updated)
              && r.value.feedType == FeedType.Atom
              && |r.value.feedItems| <= |atomFeed.entries|
  {
    if |atomFeed.links| == 0 then Failure(ParseFeedError(MissingAtomLink))
    else
      var link := atomFeed.links[0];
      var feedItems := FilterMap(Indexed(atomFeed.entries), AtomEntryStep(ids));
      Success(Feed(feedId, atomFeed.title.value, link.href, Some(atomFeed.updated), FeedType.Atom, feedItems))
  }

  /** `TryFrom<FeedSource> for Feed`: dispatch on the source format. */
  function FeedFromSource(source: FeedSource, parse: DateParser, ids: IdSupply, feedId: Uuid)
    : (r: Result<Feed, AppError>)
    ensures source.Rss? ==> r.Success? && r.value.feedType == FeedType.Rss
    ensures source.Atom? ==> (r.Success? <==> |source.atomFeed.links| > 0)
    ensures source.Atom? && r.Success? ==> r.value.feedType == FeedType.Atom
    ensures r.Success? ==> r.value.id == feedId
    ensures r.Failure? ==> r.error == ParseFeedError(MissingAtomLink)
  {
    match source
    case Atom(atomFeed) => FeedFromAtomFeed(atomFeed, ids, feedId)
    case Rss(rssChannel) => FeedFromRssChannel(rssChannel, parse, ids, feedId)
  }
}
