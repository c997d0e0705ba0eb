/** The fields of the `atom_syndication` crate's structs that the conversions read. */
module AtomLib {
  import opened Wrappers
  import opened Chrono

  /** An atom text construct; only its value is read. */
  datatype Text = Text(value: string)

  /** An atom link; only its target is read. */
  datatype Link = Link(href: string)

  /** An atom content block, whose inner value is itself optional. */
  datatype Content = Content(value: Option<string>)

  /** `atom_syndication::Entry`. */
  datatype Entry = Entry(
    title: Text,
    links: seq<Link>,
    summary: Option<Text>,
    content: Option<Content>)

  /** `atom_syndication::Feed`: `updated` is mandatory in atom. */
  datatype Feed = Feed(
    title: Text,
    links: seq<Link>,
    updated: DateTime,
    entries: seq<Entry>)
}
