/**
 * Relevance classifier and engagement decision (analyzer/FeedAnalyzer.java): keyword tests on
 * the lower-cased full text, the relevance filter over a feed, and the first-match-wins choice
 * of an engagement action. parseFeed is modelled over an already decoded JSON response.
 */
module FeedAnalysis {
  import opened Wrappers
  import opened Text
  import opened FeedModel

  // ---------------------------------------------------------------------------
  // Decoded feed responses (parseFeed)
  // ---------------------------------------------------------------------------

  /**
   * A feed response after JSON decoding. `Unparseable` is a body Gson cannot read as an
   * object. An absent "posts" or "results" member is `None`; an element that cannot be
   * bound to a FeedItem is `None` inside the array.
   */
  datatype JsonFeed =
    | Unparseable
    | JsonObject(posts: Option<seq<Option<FeedItem>>>, results: Option<seq<Option<FeedItem>>>)

  function Elements(member: Option<seq<Option<FeedItem>>>): seq<Option<FeedItem>> {
    if member.Some? then member.value else []
  }

  predicate AllDecode(elements: seq<Option<FeedItem>>) {
    forall i :: 0 <= i < |elements| ==> elements[i].Some?
  }

  /** The items decoded before the first element that fails to decode. */
  function DecodedPrefix(elements: seq<Option<FeedItem>>): (r: seq<FeedItem>)
    ensures |r| <= |elements|
    ensures forall i :: 0 <= i < |r| ==> elements[i] == Some(r[i])
  {
    if elements == [] || elements[0].None? then []
    else [elements[0].value] + DecodedPrefix(elements[1..])
  }

  /**
   * What parseFeed returns: the posts, then the results; a decoding exception ends the scan
   * and the items gathered so far are returned.
   */
  function ParsedItems(json: JsonFeed): seq<FeedItem> {
    match json
    case Unparseable => []
    case JsonObject(posts, results) =>
      if AllDecode(Elements(posts)) then DecodedPrefix(Elements(posts)) + DecodedPrefix(Elements(results))
      else DecodedPrefix(Elements(posts))
  }

  /** When every element decodes, parseFeed keeps all posts, in order, followed by all results, in order. */
  lemma {:induction false} ParsedItemsPostsThenResults(posts: seq<FeedItem>, results: seq<FeedItem>)
    ensures ParsedItems(JsonObject(Some(Wrap(posts)), Some(Wrap(results)))) == posts + results
  {
    AllWrapDecode(posts);
    DecodedPrefixOfWrap(posts);
    DecodedPrefixOfWrap(results);
  }

  function Wrap(items: seq<FeedItem>): (r: seq<Option<FeedItem>>)
    ensures |r| == |items|
    ensures forall i :: 0 <= i < |items| ==> r[i] == Some(items[i])
  {
    seq(|items|, i requires 0 <= i < |items| => Some(items[i]))
  }

  lemma AllWrapDecode(items: seq<FeedItem>)
    ensures AllDecode(Wrap(items))
  {
  }

  lemma {:induction false} DecodedPrefixOfWrap(items: seq<FeedItem>)
    ensures DecodedPrefix(Wrap(items)) == items
  {
    if items != [] {
      assert Wrap(items)[1..] == Wrap(items[1..]);
      DecodedPrefixOfWrap(items[1..]);
    }
  }

  /**
   * One loop of parseFeed: appends the decoded elements to `items0` until an element fails to
   * decode; `complete` tells whether the loop ran to the end.
   */
  method AppendDecoded(items0: seq<FeedItem>, elements: seq<Option<FeedItem>>) returns (items: seq<FeedItem>, complete: bool)
    ensures items == items0 + DecodedPrefix(elements)
    ensures complete <==> AllDecode(elements)
  {
    items := items0;
    var i := 0;
    while i < |elements|
      invariant 0 <= i <= |elements|
      invariant AllDecode(elements[..i])
      invariant items + DecodedPrefix(elements[i..]) == items0 + DecodedPrefix(elements)
    {
      if elements[i].None? {
        assert DecodedPrefix(elements[i..]) == [];
        return items, false;
      }
      assert DecodedPrefix(elements[i..]) == [elements[i].value] + DecodedPrefix(elements[i + 1..]);
      items := items + [elements[i].value];
      assert elements[..i + 1] == elements[..i] + [elements[i]];
      i := i + 1;
    }
    assert elements[..i] == elements;
    return items, true;
  }

  /** parseFeed: the loop over "posts", then, if no element failed, the loop over "results". */
  method ParseFeed(json: JsonFeed) returns (items: seq<FeedItem>)
    ensures items == ParsedItems(json)
  {
    items := [];
    if json.Unparseable? {
      return;
    }
    var complete;
    items, complete := AppendDecoded([], Elements(json.posts));
    if !complete {
      return;
    }
    items, complete := AppendDecoded(items, Elements(json.results));
  }

  // ---------------------------------------------------------------------------
  // Relevance
  // ---------------------------------------------------------------------------

  /** Direct car mentions, checked by a chain of `contains`. */
  const DirectKeywords: seq<string> := ["car", "vehicle", "auto", "automobile"]

  /** The brand array scanned second. */
  const BrandKeywords: seq<string> :=
    ["tesla", "bmw", "toyota", "honda", "ford", "chevrolet", "nissan", "mercedes", "audi"]

  /** The car-term array scanned third. */
  const TermKeywords: seq<string> :=
    ["electric vehicle", "ev", "hybrid", "gas mileage", "horsepower", "mpg", "sedan", "suv", "truck"]

  /** The lower-cased text mentions a keyword of one of the three lists. */
  predicate MentionsCarKeyword(lower: string) {
    ContainsAny(lower, DirectKeywords) || ContainsAny(lower, BrandKeywords) || ContainsAny(lower, TermKeywords)
  }

  /** What looksCarRelated and looksRelevant decide: a non-null, non-empty text that mentions a keyword. */
  predicate CarRelatedText(text: Option<string>) {
    text.Some? && |text.value| > 0 && MentionsCarKeyword(Lower(text.value))
  }

  /** An item is relevant when its full text is. */
  predicate Relevant(item: FeedItem) {
    CarRelatedText(Some(FullText(item)))
  }

  /** Scans `keys` in order and stops at the first one `lower` contains. */
  method ScanKeywords(lower: string, keys: seq<string>) returns (found: bool)
    ensures found == ContainsAny(lower, keys)
  {
    var i := 0;
    while i < |keys|
      invariant 0 <= i <= |keys|
      invariant forall k :: 0 <= k < i ==> !Contains(lower, keys[k])
    {
      if Contains(lower, keys[i]) {
        return true;
      }
      i := i + 1;
    }
    return false;
  }

  /** looksCarRelated: null and "" are not relevant; otherwise the direct test, then the two array scans. */
  method LooksCarRelated(text: Option<string>) returns (related: bool)
    ensures related == CarRelatedText(text)
    ensures related ==> text.Some? && |text.value| > 0
  {
    if text.None? || |text.value| == 0 {
      return false;
    }
    var lower := Lower(text.value);
    if ContainsAny(lower, DirectKeywords) {
      return true;
    }
    related := ScanKeywords(lower, BrandKeywords);
    if related {
      return;
    }
    related := ScanKeywords(lower, TermKeywords);
  }

  /** looksRelevant: null and "" are not relevant; otherwise exactly looksCarRelated. */
  method LooksRelevant(text: Option<string>) returns (relevant: bool)
    ensures relevant == CarRelatedText(text)
  {
    if text.None? || |text.value| == 0 {
      return false;
    }
    relevant := LooksCarRelated(text);
  }

  /** The relevance test ignores letter case. */
  lemma RelevanceIgnoresCase(text: string)
    ensures CarRelatedText(Some(text)) == CarRelatedText(Some(Lower(text)))
  {
    LowerIdempotent(text);
  }

  /** Any text containing "ev" or "car", in any case, is relevant. */
  lemma ShortKeywordsMakeRelevant(text: string)
    requires Contains(Lower(text), "ev") || Contains(Lower(text), "car")
    ensures CarRelatedText(Some(text))
  {
    assert DirectKeywords[0] == "car";
    assert TermKeywords[1] == "ev";
    if Contains(Lower(text), "car") {
      ContainsChar(Lower(text), "car", 'c');
    } else {
      ContainsChar(Lower(text), "ev", 'e');
    }
  }

  /** The item-level car test of FeedItem is subsumed by the analyzer's: its keywords are among the analyzer's. */
  lemma ItemCarTestImpliesRelevant(item: FeedItem)
    requires IsCarRelated(item)
    ensures Relevant(item)
  {
    var lower := Lower(FullText(item));
    var k :| 0 <= k < |ItemCarKeywords| && Contains(lower, ItemCarKeywords[k]);
    var key := ItemCarKeywords[k];
    assert key[0] in key;
    ContainsChar(lower, key, key[0]);
    if k < 3 {
      assert key == DirectKeywords[k];
    } else {
      assert key == BrandKeywords[k - 3];
    }
  }

  // ---------------------------------------------------------------------------
  // findRelevantItems
  // ---------------------------------------------------------------------------

  /** The relevant items of a feed, in feed order. */
  function RelevantItems(feed: seq<FeedItem>): seq<FeedItem> {
    if feed == [] then []
    else RelevantItems(feed[..|feed| - 1]) + (if Relevant(feed[|feed| - 1]) then [feed[|feed| - 1]] else [])
  }

  /**
   * Every relevant item has an author. The log statement of findRelevantItems dereferences the
   * author of each relevant item, so without one it throws a NullPointerException.
   */
  predicate AuthorsPresent(feed: seq<FeedItem>) {
    forall i :: 0 <= i < |feed| && Relevant(feed[i]) ==> feed[i].author.Some?
  }

  /** findRelevantItems: `None` is the NullPointerException of a relevant item without an author. */
  method FindRelevantItems(feed: seq<FeedItem>) returns (r: Option<seq<FeedItem>>)
    ensures r.Some? <==> AuthorsPresent(feed)
    ensures r.Some? ==> r.value == RelevantItems(feed)
  {
    var relevantItems := [];
    var i := 0;
    while i < |feed|
      invariant 0 <= i <= |feed|
      invariant AuthorsPresent(feed[..i])
      invariant relevantItems == RelevantItems(feed[..i])
    {
      var item := feed[i];
      var relevant := LooksRelevant(Some(FullText(item)));
      ExtendScan(feed, i);
      ExtendAuthors(feed, i);
      MissingAuthor(feed, i);
      if relevant {
        relevantItems := relevantItems + [item];
        if item.author.None? {
          return None;
        }
      }
      i := i + 1;
    }
    assert feed[..i] == feed;
    return Some(relevantItems);
  }

  /** One more step of the scan of findRelevantItems. */
  lemma ExtendScan(feed: seq<FeedItem>, i: nat)
    requires i < |feed|
    ensures RelevantItems(feed[..i + 1])
            == RelevantItems(feed[..i]) + (if Relevant(feed[i]) then [feed[i]] else [])
  {
    var prefix := feed[..i + 1];
    assert prefix[..i] == feed[..i];
    assert prefix[i] == feed[i];
  }

  lemma ExtendAuthors(feed: seq<FeedItem>, i: nat)
    requires i < |feed|
    ensures AuthorsPresent(feed[..i + 1]) <==> AuthorsPresent(feed[..i]) && (Relevant(feed[i]) ==> feed[i].author.Some?)
  {
    var prefix := feed[..i + 1];
    assert prefix[..i] == feed[..i];
    assert prefix[i] == feed[i];
  }

  lemma MissingAuthor(feed: seq<FeedItem>, i: nat)
    requires i < |feed|
    ensures Relevant(feed[i]) && feed[i].author.None? ==> !AuthorsPresent(feed)
  {
  }

  /** findCarRelatedItems: the legacy name, with the same result. */
  method FindCarRelatedItems(feed: seq<FeedItem>) returns (r: Option<seq<FeedItem>>)
    ensures r.Some? <==> AuthorsPresent(feed)
    ensures r.Some? ==> r.value == RelevantItems(feed)
  {
    r := FindRelevantItems(feed);
  }

  /** The filter keeps exactly the relevant items of the feed. */
  lemma {:induction false} RelevantItemsExact(feed: seq<FeedItem>, x: FeedItem)
    ensures x in RelevantItems(feed) <==> x in feed && Relevant(x)
  {
    if feed != [] {
      var init := feed[..|feed| - 1];
      assert feed == init + [feed[|feed| - 1]];
      RelevantItemsExact(init, x);
    }
  }

  /** `a` is `b` with some elements left out and the rest in their original order. */
  ghost predicate SubsequenceOf<T>(a: seq<T>, b: seq<T>)
    decreases |b|
  {
    if a == [] then true
    else if b == [] then false
    else (a[|a| - 1] == b[|b| - 1] && SubsequenceOf(a[..|a| - 1], b[..|b| - 1]))
         || SubsequenceOf(a, b[..|b| - 1])
  }

  /** The filter preserves feed order. */
  lemma {:induction false} RelevantItemsInFeedOrder(feed: seq<FeedItem>)
    ensures SubsequenceOf(RelevantItems(feed), feed)
  {
    if feed != [] {
      var init := feed[..|feed| - 1];
      RelevantItemsInFeedOrder(init);
      var r := RelevantItems(feed);
      if Relevant(feed[|feed| - 1]) {
        assert r[..|r| - 1] == RelevantItems(init);
      } else {
        assert r == RelevantItems(init);
        if r != [] {
          assert SubsequenceOf(r, feed);
        }
      }
    }
  }

  // ---------------------------------------------------------------------------
  // analyzeForEngagement
  // ---------------------------------------------------------------------------

  datatype EngagementAction =
    | UpvoteOnly
    | CommentWithInfo
    | CommentWithComparison
    | CommentWithRecommendation
    | ObserveOnly

  predicate IsComment(action: EngagementAction) {
    action.CommentWithInfo? || action.CommentWithComparison? || action.CommentWithRecommendation?
  }

  const AdviceKeywords: seq<string> := ["best car", "which car", "recommend", "advice"]
  const ComparisonKeywords: seq<string> := ["vs", "compare", "better than"]
  const PraiseKeywords: seq<string> := ["insight", "learned", "interesting"]

  /**
   * analyzeForEngagement, evaluated on the lower-cased full text, first match wins. `None` is the
   * NullPointerException of unboxing a null upvote count, which the third test does before it
   * looks at the text.
   */
  function AnalyzeForEngagement(item: FeedItem): Option<EngagementAction> {
    var text := Lower(FullText(item));
    if Contains(text, "?") then
      if ContainsAny(text, AdviceKeywords) then Some(CommentWithRecommendation) else Some(CommentWithInfo)
    else if ContainsAny(text, ComparisonKeywords) then Some(CommentWithComparison)
    else if item.upvotes.None? then None
    else if item.upvotes.value > 5 || ContainsAny(text, PraiseKeywords) then Some(UpvoteOnly)
    else Some(ObserveOnly)
  }

  /** A question gets a recommendation exactly when it asks for advice, and otherwise information; never anything else. */
  lemma QuestionsGetComments(item: FeedItem)
    requires Contains(Lower(FullText(item)), "?")
    ensures AnalyzeForEngagement(item) == Some(CommentWithRecommendation)
            <==> ContainsAny(Lower(FullText(item)), AdviceKeywords)
    ensures AnalyzeForEngagement(item) == Some(CommentWithInfo)
            <==> !ContainsAny(Lower(FullText(item)), AdviceKeywords)
  {
  }

  /** Without a question, a comparison phrase decides, whatever the upvote count (even a null one). */
  lemma ComparisonsBeatUpvotes(item: FeedItem, upvotes: Option<int>)
    requires !Contains(Lower(FullText(item)), "?")
    requires ContainsAny(Lower(FullText(item)), ComparisonKeywords)
    ensures AnalyzeForEngagement(item) == Some(CommentWithComparison)
    ensures AnalyzeForEngagement(item.(upvotes := upvotes)) == Some(CommentWithComparison)
  {
    assert FullText(item.(upvotes := upvotes)) == FullText(item);
  }

  /** The last two rungs: more than five upvotes or praise gives an upvote, otherwise observation; null upvotes fail. */
  lemma UpvoteOrObserve(item: FeedItem)
    requires !Contains(Lower(FullText(item)), "?")
    requires !ContainsAny(Lower(FullText(item)), ComparisonKeywords)
    ensures item.upvotes.None? <==> AnalyzeForEngagement(item).None?
    ensures item.upvotes.Some? ==>
              (AnalyzeForEngagement(item) == Some(UpvoteOnly)
               <==> item.upvotes.value > 5 || ContainsAny(Lower(FullText(item)), PraiseKeywords))
    ensures item.upvotes.Some? ==> !IsComment(AnalyzeForEngagement(item).value)
  {
  }
}
