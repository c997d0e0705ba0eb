/** The fields of the `rss` crate's structs that the conversions read. */
module RssLib {
  import opened Wrappers

  /** `rss::Item`: every field of an rss item is optional. */
  datatype Item = Item(
    title: Option<string>,
    link: Option<string>,
    description: Option<string>,
    content: Option<string>)

  /** `rss::Channel`: title and link are mandatory, the build date is free text. */
  datatype Channel = Channel(
    title: string,
    link: string,
    lastBuildDate: Option<string>,
    items: seq<Item>)
}
