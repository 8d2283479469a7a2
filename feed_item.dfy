/** A post or comment of the remote feed, as the engine reads it (model/FeedItem.java). */
module FeedModel {
  import opened Wrappers
  import opened Text

  /** The author object of a feed item; only its name is ever read. */
  datatype Author = Author(name: Option<string>)

  /**
   * The fields of a decoded feed item that the engagement engine reads. Every reference
   * field may be null in the decoded JSON; `upvotes` is a boxed Integer.
   */
  datatype FeedItem = FeedItem(
    id: Option<string>,
    title: Option<string>,
    content: Option<string>,
    upvotes: Option<int>,
    author: Option<Author>)

  /** getFullText: the title followed by a space when there is a title, then the content when there is one. */
  function FullText(item: FeedItem): (r: string)
    ensures item.title.Some? && item.content.Some? ==> r == item.title.value + " " + item.content.value
    ensures item.title.None? && item.content.Some? ==> r == item.content.value
    ensures item.title.Some? && item.content.None? ==> r == item.title.value + " "
    ensures item.title.None? && item.content.None? ==> r == ""
  {
    (if item.title.Some? then item.title.value + " " else "")
    + (if item.content.Some? then item.content.value else "")
  }

  /** A phrase found in the title or in the content is found in the full text. */
  lemma FullTextContainsParts(item: FeedItem, phrase: string)
    ensures item.title.Some? && Contains(item.title.value, phrase) ==> Contains(FullText(item), phrase)
    ensures item.content.Some? && Contains(item.content.value, phrase) ==> Contains(FullText(item), phrase)
  {
    var head := if item.title.Some? then item.title.value + " " else "";
    var tail := if item.content.Some? then item.content.value else "";
    assert FullText(item) == head + tail;
    if item.title.Some? {
      ContainsInConcat(item.title.value, " ", phrase);
    }
    ContainsInConcat(head, tail, phrase);
  }

  /** The keywords isCarRelated tests for. */
  const ItemCarKeywords: seq<string> := ["car", "vehicle", "auto", "tesla", "bmw", "toyota", "honda", "ford"]

  /** isCarRelated: the lower-cased full text contains one of the item-level car keywords. */
  predicate IsCarRelated(item: FeedItem) {
    ContainsAny(Lower(FullText(item)), ItemCarKeywords)
  }
}
