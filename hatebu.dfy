/** The shape of one bookmark as the feed reader produces it. */
module Hatebu {
  import opened Wrappers
  import opened Utf8

  /** A bookmark: RSS item title, link, optional description and its Dublin Core subjects. */
  datatype Entry = Entry(title: Bytes, url: Bytes, description: Option<Bytes>, tags: seq<Bytes>)
}
