# simple_rss feed normalisation, modelled in Dafny

simple_rss is a small web service. It takes a feed URL, downloads the document
and parses it as RSS, or as Atom if RSS parsing fails. It then normalises the
result into one `Feed` with an ordered list of `FeedItem`s. This project models
that normalisation layer, the five `TryFrom` conversions of `src/models.rs`:

- `FeedSource` to `Feed` dispatches on the format tag.
- An `rss::Channel` to `Feed` never fails. Items without a title or a link are
  dropped. An unparsable `last_build_date` becomes `None`.
- An `atom_syndication::Feed` to `Feed` fails with `ParseFeedError` when the
  feed has no link. Entries without a link are dropped.
- An `rss::Item` to `FeedItem` needs a title, then a link.
- An `atom_syndication::Entry` to `FeedItem` needs a link. The entry's nested
  optional content collapses to one `Option`.

Layout:

- `wrappers.dfy` (`Wrappers`): `Option` and `Result`. `Result` works with
  `:-` the way `?` works in Rust.
- `errors.dfy` (`Errors`): the two `AppError` variants and the three error
  detail strings.
- `chrono.dfy` (`Chrono`): an opaque `DateTime`, and the type of a date parser.
- `rss_lib.dfy` (`RssLib`), `atom_lib.dfy` (`AtomLib`): the fields of the
  parser libraries' structs that the conversions read.
- `filter_maps.dfy` (`FilterMaps`): a generic `filter_map`, the increasing
  positions where a predicate holds, and the lemmas linking the two.
- `models.dfy` (`Models`): `FeedSource`, `FeedType`, `Feed`, `FeedItem` and
  the five conversions.
- `model_properties.dfy` (`ModelProperties`): lemmas that relate several
  conversions.

Two inputs of the source cannot be seen, so they become parameters:

- `Uuid::new_v4()` is random. The feed id is a parameter `feedId`. Item ids
  come from a supply `ids: nat -> Uuid`: the item at source position `i` gets
  `ids(i)`. Every property holds for every supply.
- chrono's `str::parse::<DateTime<FixedOffset>>` becomes a parameter
  `parse: string -> Option<DateTime>`. Every property holds for every parser.

## Model

| member | source | states |
|---|---|---|
| Models.FeedFromSource | src/models.rs:45-50 | An Rss source always converts, with `feedType = Rss`. An Atom source converts exactly when it has a link, and then has `feedType = Atom`. The only error is `ParseFeedError("Unable to find a link in an atom entry")`. |
| Models.FeedFromRssChannel | src/models.rs:56-80 | Never fails. Title and url are the channel's title and link, and `feedType` is Rss. `sourceUpdatedAt` is `Some` exactly when the build date is present and parses, and then it is the parsed value. There are never more items than source items. |
| Models.FeedFromAtomFeed | src/models.rs:86-107 | Fails exactly when the link list is empty, with `ParseFeedError("Unable to find a link in an atom entry")`. On success: url is the first link's href, title is the title text, `sourceUpdatedAt = Some(updated)`, `feedType` is Atom, and there are never more items than entries. |
| Models.ItemFromRssItem | src/models.rs:113-128 | Succeeds exactly when both title and link are present. A missing title is reported first ("Rss item doesn't have a title"), then a missing link ("Rss item doesn't have a url"). On success: title, url, summary (from description) and content are copied, and the id is the given one. |
| Models.ItemFromAtomEntry | src/models.rs:134-151 | Succeeds exactly when the entry has a link; otherwise the error is "Unable to find a link in an atom entry". On success: url is the first link's href and title is the title text. The summary is present exactly when the entry has one, with the same text. The content is present exactly when both the block and its inner value are present. |
| FilterMaps.FilterMap | src/models.rs:65-70 | A filter-map never yields more elements than its input has. |
| FilterMaps.FilterMapAtPositions | src/models.rs:65-70 | The k-th output element is the value at the k-th input position where the step succeeds. Positions are increasing, and they are exactly the successful ones, so the output keeps source order. |
| FilterMaps.FilterMapAllDefined | src/models.rs:65-70 | When every step succeeds, nothing is dropped and element i of the output comes from input element i. |
| FilterMaps.FilterMapDropsUndefined | src/models.rs:65-70 | One failing step makes the output strictly shorter than the input. |
| ModelProperties.RssItemsInOrder | src/models.rs:65-70 | The items of an rss feed are exactly the conversions of the source items that have both title and link, in source order, and there is one per such item. |
| ModelProperties.AtomItemsInOrder | src/models.rs:92-97 | The items of an atom feed are exactly the conversions of the entries that have a link, in source order, and there is one per such entry. |
| ModelProperties.RssKeepsEveryItemIff | src/models.rs:65-70 | An rss feed has as many items as its channel exactly when every channel item has a title and a link. |
| ModelProperties.AtomKeepsEveryEntryIff | src/models.rs:92-97 | An atom feed has as many items as entries exactly when every entry has a link. |
| ModelProperties.RssItemRoundTrip | src/models.rs:121-127 | Every `FeedItem` is the conversion of the rss item built from its fields. |
| ModelProperties.RssItemLossless | src/models.rs:113-127 | A successful rss item conversion loses nothing: the source item can be rebuilt from the result. |
| ModelProperties.AtomEntryRoundTrip | src/models.rs:136-150 | Every `FeedItem` is the conversion of an atom entry with one link. |
| ModelProperties.AtomEntryReadsOnly | src/models.rs:136-150 | The entry conversion reads only the title, the first link, the summary and the inner content value. Entries that agree on these convert to the same result. |
| ModelProperties.NormalizeIgnoresIds | src/models.rs:42-107 | For the same document, two runs with different ids both succeed or both fail. Failures carry the same error, and successes agree on everything except the ids. |
| ModelProperties.ItemIdsDistinct | src/models.rs:110-152 | When the id supply never repeats, the items of a converted feed have pairwise distinct ids. |
| ModelProperties.ExampleChannel | src/models.rs:56-80 | A channel "Example" / "http://example.com" with one item "A" / "http://example.com/a" converts to a feed with exactly that one item. |

## Left out

- `src/controller.rs`: the `reqwest` download and the RSS-first, Atom-second parsing fallback. Both depend on the network and on parser libraries whose code is not part of this model. The error "Couldn't parse as neither atom nor rss feed" is produced there, so it is not modelled.
- `src/main.rs`: axum routing, the JSON payload and server startup are HTTP plumbing.
- `src/error.rs`: the `IntoResponse` mapping of both errors to `400 Bad Request` and the `thiserror` message texts. Only the two `AppError` variants are kept. The transport cause of `FetchFeedError` is kept as an opaque string.
- chrono's date parsing is a parameter, so which build-date strings parse is not modelled. RSS writes `lastBuildDate` in the RFC 822 date format. chrono's `FromStr` for `DateTime<FixedOffset>` expects RFC 3339-like text. So for most real channels `sourceUpdatedAt` is probably `None`. This cannot be shown without a model of chrono.
- `Uuid::new_v4()` randomness: ids come from parameters. That the ids are globally unique is not modelled. `ItemIdsDistinct` only says distinct supply values give distinct item ids.
- serde serialisation, including leaving `content` out of the JSON.
- The library structs keep only the fields the conversions read.
- Feed titles are not required to be non-empty, because the code does not check this.
- The Atom feed-level error reuses the entry message ("... in an atom entry"). The model keeps that text as it is.
