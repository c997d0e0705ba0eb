/** Properties relating several conversions of `src/models.rs`. */
module ModelProperties {
  import opened Wrappers
  import opened Chrono
  import RssLib
  import AtomLib
  import opened FilterMaps
  import opened Models

  /** The rss item a feed item could have come from: the inverse of `ItemFromRssItem`. */
  function RssItemOf(item: FeedItem): RssLib.Item {
    RssLib.Item(Some(item.title), Some(item.url), item.summary, item.content)
  }

  /** An atom entry that converts to the given feed item. */
  function AtomEntryOf(item: FeedItem): AtomLib.Entry {
    AtomLib.Entry(
      AtomLib.Text(item.title),
      [AtomLib.Link(item.url)],
      item.summary.Map((s: string) => AtomLib.Text(s)),
      item.content.Map((c: string) => AtomLib.Content(Some(c))))
  }

  /** Two feeds that differ at most in the ids of the feed and of its items. */
  predicate SameUpToIds(a: Feed, b: Feed) {
    && a.title == b.title
    && a.url == b.url
    && a.sourceUpdatedAt == b.sourceUpdatedAt
    && a.feedType == b.feedType
    && |a.feedItems| == |b.feedItems|
    && forall k :: 0 <= k < |a.feedItems| ==> a.feedItems[k].(id := b.feedItems[k].id) == b.feedItems[k]
  }

  /** Every feed item is the conversion of an rss item. */
  lemma RssItemRoundTrip(item: FeedItem)
    ensures ItemFromRssItem(RssItemOf(item), item.id) == Success(item)
  {
  }

  /** The rss item conversion loses nothing: the source item is recovered from its result. */
  lemma RssItemLossless(source: RssLib.Item, id: Uuid)
    ensures ItemFromRssItem(source, id).Success? ==>
              RssItemOf(ItemFromRssItem(source, id).value) == source
  {
  }

  /** Every feed item is the conversion of an atom entry. */
  lemma AtomEntryRoundTrip(item: FeedItem)
    ensures ItemFromAtomEntry(AtomEntryOf(item), item.id) == Success(item)
  {
  }

  /**
   * The atom entry conversion reads only the title, the first link, the
   * summary text and the inner content value: entries that agree on those
   * convert alike.
   */
  lemma AtomEntryReadsOnly(e1: AtomLib.Entry, e2: AtomLib.Entry, id: Uuid)
    requires e1.title == e2.title
    requires |e1.links| > 0 <==> |e2.links| > 0
    requires |e1.links| > 0 ==> e1.links[0] == e2.links[0]
    requires e1.summary == e2.summary
    requires e1.content.AndThen((c: AtomLib.Content) => c.value) == e2.content.AndThen((c: AtomLib.Content) => c.value)
    ensures ItemFromAtomEntry(e1, id) == ItemFromAtomEntry(e2, id)
  {
  }

  /**
   * The items of an rss feed are exactly the convertible source items, in
   * source order: the k-th feed item is the conversion of the k-th rss item
   * that has both a title and a link.
   */
  lemma {:induction false} RssItemsInOrder(channel: RssLib.Channel, parse: DateParser, ids: IdSupply, feedId: Uuid)
    ensures var items := FeedFromRssChannel(channel, parse, ids, feedId).value.feedItems;
            var kept := Positions(channel.items, RssItemConvertible);
            && |items| == |kept|
            && (forall i :: 0 <= i < |channel.items| ==> (i in kept <==> RssItemConvertible(channel.items[i])))
            && (forall k :: 0 <= k < |kept| ==>
                  kept[k] < |channel.items| &&
                  items[k] == ItemFromRssItem(channel.items[kept[k]], ids(kept[k])).value)
  {
    var s := Indexed(channel.items);
    var f := RssItemStep(ids);
    FilterMapAtPositions(s, f);
    PositionsAgree(s, Defined(f), channel.items, RssItemConvertible);
  }

  /**
   * The items of an atom feed are exactly the source entries that have a
   * link, in source order.
   */
  lemma {:induction false} AtomItemsInOrder(atomFeed: AtomLib.Feed, ids: IdSupply, feedId: Uuid)
    requires |atomFeed.links| > 0
    ensures var items := FeedFromAtomFeed(atomFeed, ids, feedId).value.feedItems;
            var kept := Positions(atomFeed.entries, AtomEntryConvertible);
            && |items| == |kept|
            && (forall i :: 0 <= i < |atomFeed.entries| ==> (i in kept <==> AtomEntryConvertible(atomFeed.entries[i])))
            && (forall k :: 0 <= k < |kept| ==>
                  kept[k] < |atomFeed.entries| &&
                  items[k] == ItemFromAtomEntry(atomFeed.entries[kept[k]], ids(kept[k])).value)
  {
    var s := Indexed(atomFeed.entries);
    var f := AtomEntryStep(ids);
    FilterMapAtPositions(s, f);
    PositionsAgree(s, Defined(f), atomFeed.entries, AtomEntryConvertible);
  }

  /** An rss feed keeps as many items as its source has exactly when every source item converts. */
  lemma {:induction false} RssKeepsEveryItemIff(channel: RssLib.Channel, parse: DateParser, ids: IdSupply, feedId: Uuid)
    ensures |FeedFromRssChannel(channel, parse, ids, feedId).value.feedItems| == |channel.items| <==>
              forall i :: 0 <= i < |channel.items| ==> RssItemConvertible(channel.items[i])
  {
    var s := Indexed(channel.items);
    var f := RssItemStep(ids);
    if forall i :: 0 <= i < |channel.items| ==> RssItemConvertible(channel.items[i]) {
      FilterMapAllDefined(s, f);
    } else {
      var i :| 0 <= i < |channel.items| && !RssItemConvertible(channel.items[i]);
      FilterMapDropsUndefined(s, f, i);
    }
  }

  /** An atom feed keeps as many items as its source has entries exactly when every entry has a link. */
  lemma {:induction false} AtomKeepsEveryEntryIff(atomFeed: AtomLib.Feed, ids: IdSupply, feedId: Uuid)
    requires |atomFeed.links| > 0
    ensures |FeedFromAtomFeed(atomFeed, ids, feedId).value.feedItems| == |atomFeed.entries| <==>
              forall i :: 0 <= i < |atomFeed.entries| ==> AtomEntryConvertible(atomFeed.entries[i])
  {
    var s := Indexed(atomFeed.entries);
    var f := AtomEntryStep(ids);
    if forall i :: 0 <= i < |atomFeed.entries| ==> AtomEntryConvertible(atomFeed.entries[i]) {
      FilterMapAllDefined(s, f);
    } else {
      var i :| 0 <= i < |atomFeed.entries| && !AtomEntryConvertible(atomFeed.entries[i]);
      FilterMapDropsUndefined(s, f, i);
    }
  }

  /**
   * Normalisation is a function of the document alone: two runs with any ids
   * agree on success, on the error, and on everything but the ids.
   */
  lemma {:induction false} NormalizeIgnoresIds(
    source: FeedSource, parse: DateParser, ids1: IdSupply, feedId1: Uuid, ids2: IdSupply, feedId2: Uuid)
    ensures var r1 := FeedFromSource(source, parse, ids1, feedId1);
            var r2 := FeedFromSource(source, parse, ids2, feedId2);
            && (r1.Success? <==> r2.Success?)
            && (r1.Failure? ==> r1 == r2)
            && (r1.Success? ==> SameUpToIds(r1.value, r2.value))
  {
    match source
    case Rss(channel) =>
      RssItemsInOrder(channel, parse, ids1, feedId1);
      RssItemsInOrder(channel, parse, ids2, feedId2);
    case Atom(atomFeed) =>
      if |atomFeed.links| > 0 {
        AtomItemsInOrder(atomFeed, ids1, feedId1);
        AtomItemsInOrder(atomFeed, ids2, feedId2);
      }
  }

  /** Distinct ids from the supply give the items of a feed distinct ids. */
  lemma {:induction false} ItemIdsDistinct(source: FeedSource, parse: DateParser, ids: IdSupply, feedId: Uuid)
    requires forall i: nat, j: nat :: i != j ==> ids(i) != ids(j)
    ensures var r := FeedFromSource(source, parse, ids, feedId);
            r.Success? ==>
              forall j, k :: 0 <= j < k < |r.value.feedItems| ==> r.value.feedItems[j].id != r.value.feedItems[k].id
  {
    match source
    case Rss(channel) =>
      RssItemsInOrder(channel, parse, ids, feedId);
    case Atom(atomFeed) =>
      if |atomFeed.links| > 0 {
        AtomItemsInOrder(atomFeed, ids, feedId);
      }
  }

  /** A channel with one complete item yields a feed with that one item. */
  lemma ExampleChannel(parse: DateParser, ids: IdSupply, feedId: Uuid)
    ensures var item := RssLib.Item(Some("A"), Some("http://example.com/a"), None, None);
            var channel := RssLib.Channel("Example", "http://example.com", None, [item]);
            FeedFromSource(FeedSource.Rss(channel), parse, ids, feedId) ==
              Success(Feed(feedId, "Example", "http://example.com", None, FeedType.Rss,
                           [FeedItem(ids(0), "A", "http://example.com/a", None, None)]))
  {
    var item := RssLib.Item(Some("A"), Some("http://example.com/a"), None, None);
    var channel := RssLib.Channel("Example", "http://example.com", None, [item]);
    assert channel.items[..0] == [];
    assert Positions(channel.items, RssItemConvertible) == [0];
    RssItemsInOrder(channel, parse, ids, feedId);
    var items := FeedFromRssChannel(channel, parse, ids, feedId).value.feedItems;
    assert items[0] == FeedItem(ids(0), "A", "http://example.com/a", None, None);
    assert items == [FeedItem(ids(0), "A", "http://example.com/a", None, None)];
  }
}
