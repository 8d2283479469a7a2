/**
 * The heartbeat controller itself (client/MoltbookHeartbeat.java): an object whose fields the
 * run updates step by step. Every method is proved to leave the fields and the ledger exactly as
 * the matching function of HeartbeatRules says, so the properties proved there hold of the class.
 * The clock readings are parameters (`now`, or the readings carried by the inputs of a step); the
 * outcomes of remote and generated calls are parameters too.
 */
module Heartbeat {
  import opened Wrappers
  import opened Text
  import opened FeedModel
  import opened FeedAnalysis
  import opened ActivityTracking
  import opened HeartbeatRules

  class MoltbookHeartbeat {
    /** The shared ledger the controller reports to. */
    const tracker: ActivityTrackingService

    var lastCheck: Option<int>
    var semanticSearchResultCount: int
    var lastPostTime: Option<int>
    var lastCommentTime: Option<int>
    var postCooldownMinutes: int
    var commentCooldownSeconds: int

    /** The fields as one value. */
    function State(): HeartbeatState
      reads this
    {
      HeartbeatState(lastCheck, semanticSearchResultCount, lastPostTime, lastCommentTime,
                     postCooldownMinutes, commentCooldownSeconds)
    }

    ghost predicate Valid()
      reads this, tracker
    {
      tracker.Valid()
    }

    /** A new controller: never run, never posted or commented, default cooldowns. */
    constructor (tracker: ActivityTrackingService)
      ensures this.tracker == tracker
      ensures State() == InitialState
    {
      this.tracker := tracker;
      lastCheck := None;
      semanticSearchResultCount := 0;
      lastPostTime := None;
      lastCommentTime := None;
      postCooldownMinutes := DefaultPostCooldownMinutes;
      commentCooldownSeconds := DefaultCommentCooldownSeconds;
    }

    /** getLastCheck. */
    method GetLastCheck() returns (r: Option<int>)
      ensures r == State().lastCheck
    {
      r := lastCheck;
    }

    /** canPost. */
    method CanPost(now: int) returns (b: bool)
      ensures b == HeartbeatRules.CanPost(State(), now)
    {
      if lastPostTime.None? {
        return true;
      }
      var minutes := WholeMinutes(lastPostTime.value, now);
      b := minutes >= postCooldownMinutes;
    }

    /** canComment. */
    method CanComment(now: int) returns (b: bool)
      ensures b == HeartbeatRules.CanComment(State(), now)
    {
      if lastCommentTime.None? {
        return true;
      }
      b := now - lastCommentTime.value >= commentCooldownSeconds;
    }

    /** getMinutesUntilCanPost: never negative, zero exactly when a post is allowed. */
    method GetMinutesUntilCanPost(now: int) returns (r: int)
      ensures r == MinutesUntilCanPost(State(), now)
      ensures r >= 0 && (r == 0 <==> HeartbeatRules.CanPost(State(), now))
    {
      if lastPostTime.None? {
        return 0;
      }
      var minutesPassed := WholeMinutes(lastPostTime.value, now);
      r := postCooldownMinutes - minutesPassed;
      if r < 0 {
        r := 0;
      }
    }

    /** The number after a retry hint; `None` where substring or parseInt throws. */
    static method ReadRetryHint(errorMessage: string, key: string) returns (r: Option<int>)
      requires |key| == 22
      ensures r == RetryHint(errorMessage, key)
    {
      var start := IndexOf(errorMessage, key) + 22;
      var end := IndexOfFrom(errorMessage, ",", start);
      if end == -1 {
        end := IndexOfFrom(errorMessage, "}", start);
      }
      if end == -1 {
        return None;
      }
      r := ParseInt(Trim(errorMessage[start..end]));
    }

    /** The hint of updateCooldownFromError: read after "retry_after_minutes" for a post, "retry_after_seconds" for a comment. */
    static method ReadCooldownHint(errorMessage: string, isPost: bool) returns (hint: Option<int>)
      ensures hint == CooldownHint(errorMessage, isPost)
    {
      HintKeysLength();
      hint := None;
      if isPost && MinutesHinted(errorMessage) {
        hint := ReadRetryHint(errorMessage, MinutesKey);
      } else if !isPost && SecondsHinted(errorMessage) {
        hint := ReadRetryHint(errorMessage, SecondsKey);
      }
    }

    /** updateCooldownFromError. */
    method UpdateCooldownFromError(errorMessage: string, isPost: bool, now: int)
      modifies this
      ensures State() == CooldownAfterError(old(State()), errorMessage, isPost, now)
    {
      var hint := ReadCooldownHint(errorMessage, isPost);
      if hint.Some? {
        if isPost {
          postCooldownMinutes := hint.value;
          lastPostTime := Some(now);
        } else {
          commentCooldownSeconds := hint.value;
          lastCommentTime := Some(now);
        }
      }
    }

    /** The handler of processRelevantItem for a failed comment or a failed upvote after it. */
    method HandleCommentFailure(item: FeedItem, response: string, message: string, now: int)
      requires item.author.Some? && Valid()
      modifies this, tracker
      ensures Valid()
      ensures State() == CommentFailure(old(State()), item, response, message, now).state
      ensures tracker.activities == AppendAll(old(tracker.activities), CommentFailure(old(State()), item, response, message, now).records)
    {
      ghost var log0 := tracker.activities;
      var title := DisplayTitle(item);
      var failed := CommentRecord(item.id, Some(title), Some(response), false, now);
      if IsRateLimit(message) {
        UpdateCooldownFromError(message, false, now);
        tracker.TrackCommentWithStatus(item.id, Some(title), Some(response), false, now);
        var hit := Some("Rate limit hit for comment on post " + JavaString(item.id));
        tracker.TrackError(hit, now);
        AppendAllTwo(log0, failed, ErrorRecord(hit, now));
      } else {
        tracker.TrackCommentWithStatus(item.id, Some(title), Some(response), false, now);
        var reported := Some("Failed to comment on post " + JavaString(item.id) + ": " + message);
        tracker.TrackError(reported, now);
        tracker.TrackError(Some("Exception processing post " + JavaString(item.id) + ": " + message), now);
        AppendAllThree(log0, failed, ErrorRecord(reported, now), ProcessingError(item, message, now));
      }
    }

    /** The createComment / upvote block of processRelevantItem, past the cooldown check. */
    method AttemptComment(item: FeedItem, io: ItemIO)
      requires item.author.Some? && Valid()
      modifies this, tracker
      ensures Valid()
      ensures State() == CommentAttempt(old(State()), item, io).state
      ensures tracker.activities == AppendAll(old(tracker.activities), CommentAttempt(old(State()), item, io).records)
    {
      ghost var log0 := tracker.activities;
      if io.comment.Failed? {
        HandleCommentFailure(item, io.reply, io.comment.message, io.failedAt);
        return;
      }
      lastCommentTime := Some(io.commentedAt);
      if io.upvote.Failed? {
        HandleCommentFailure(item, io.reply, io.upvote.message, io.failedAt);
      } else {
        tracker.TrackComment(item.id, Some(DisplayTitle(item)), Some(io.reply), io.commentedAt);
        AppendAllOne(log0, CommentRecord(item.id, Some(DisplayTitle(item)), Some(io.reply), true, io.commentedAt));
      }
    }

    /** processRelevantItem; `io` holds the reply the model generates and the outcomes of the calls. */
    method ProcessRelevantItem(item: FeedItem, io: ItemIO)
      requires item.author.Some? && Valid()
      modifies this, tracker
      ensures Valid()
      ensures State() == ItemStep(old(State()), item, io).state
      ensures tracker.activities == AppendAll(old(tracker.activities), ItemStep(old(State()), item, io).records)
    {
      var now := io.checkedAt;
      ghost var s0 := State();
      ghost var log0 := tracker.activities;
      var action := AnalyzeForEngagement(item);
      if action.None? {
        tracker.TrackError(Some("Exception processing post " + JavaString(item.id) + ": " + NullUpvotesMessage), now);
        AppendAllOne(log0, ProcessingError(item, NullUpvotesMessage, now));
      } else if action.value.UpvoteOnly? {
        if io.upvote.Failed? {
          tracker.TrackError(Some("Exception processing post " + JavaString(item.id) + ": " + io.upvote.message), now);
          AppendAllOne(log0, ProcessingError(item, io.upvote.message, now));
        }
      } else if action.value.ObserveOnly? {
        tracker.TrackObservation(item.id, Some(DisplayTitle(item)), now);
        AppendAllOne(log0, ObservationRecord(item.id, Some(DisplayTitle(item)), now));
      } else {
        var allowed := CanComment(now);
        if allowed {
          ItemStepComments(s0, item, io);
          AttemptComment(item, io);
        }
      }
    }

    /** The loop of runHeartbeat over the relevant items; the i-th item meets `io(i)`. */
    method ProcessRelevantItems(items: seq<FeedItem>, io: nat -> ItemIO)
      requires AllAuthored(items) && Valid()
      modifies this, tracker
      ensures Valid()
      ensures State() == ItemsStep(old(State()), items, io).state
      ensures tracker.activities == AppendAll(old(tracker.activities), ItemsStep(old(State()), items, io).records)
    {
      ghost var s0 := State();
      ghost var log0 := tracker.activities;
      var i := 0;
      while i < |items|
        invariant 0 <= i <= |items|
        invariant AllAuthored(items[..i])
        invariant Valid()
        invariant State() == ItemsStep(s0, items[..i], io).state
        invariant tracker.activities == AppendAll(log0, ItemsStep(s0, items[..i], io).records)
      {
        ghost var prev := ItemsStep(s0, items[..i], io);
        ghost var mid := tracker.activities;
        ProcessRelevantItem(items[i], io(i));
        ghost var last := ItemStep(prev.state, items[i], io(i));
        assert items[..i + 1][..i] == items[..i];
        assert AllAuthored(items[..i + 1]);
        assert ItemsStep(s0, items[..i + 1], io) == Step(last.state, prev.records + last.records);
        AppendAllConcat(log0, prev.records, last.records);
        i := i + 1;
      }
      assert items[..i] == items;
    }

    /** searchForRelevantDiscussions: the search count is the number of parsed results, 0 on failure. */
    method SearchForRelevantDiscussions(search: Fetch<JsonFeed>)
      modifies this
      ensures State() == old(State()).(searchResultCount := SearchCount(search))
    {
      match search
      case FetchFailed(_) =>
        semanticSearchResultCount := 0;
      case Fetched(json) =>
        var results := ParseFeed(json);
        semanticSearchResultCount := |results|;
    }

    /** One element of the pending_posts array; `stop` when its exception ends the loop. */
    method VerifyPendingPost(entry: PendingEntry, now: int) returns (stop: bool)
      requires Valid()
      modifies tracker
      ensures Valid()
      ensures stop == EntryStops(entry)
      ensures tracker.activities == AppendAll(old(tracker.activities), EntryRecords(entry, now))
    {
      stop := false;
      match entry {
        case NoVerification =>
        case MalformedEntry(m) =>
          tracker.TrackError(Some("Exception checking pending posts: " + m), now);
          AppendAllOne(old(tracker.activities), PendingFailure(m, now));
          stop := true;
        case AwaitingVerification(postId, reply, verify) =>
          var answer := NormalizeAnswer(reply);
          if answer.Err? {
            tracker.TrackError(Some("Exception checking pending posts: " + answer.message), now);
            AppendAllOne(old(tracker.activities), PendingFailure(answer.message, now));
            stop := true;
          } else {
            if verify.Done? {
              tracker.TrackPost(Some(postId), Some("Verified pending post"), Some("Successfully verified post " + postId), now);
            } else {
              tracker.TrackError(Some("Failed to verify pending post " + postId + ": " + verify.message), now);
            }
            AppendAllOne(old(tracker.activities), VerifiedRecord(postId, verify, now));
          }
      }
    }

    /** The verification loop of checkPendingPosts; an exception ends it with one ERROR. */
    method VerifyPendingPosts(entries: seq<PendingEntry>, now: int)
      requires Valid()
      modifies tracker
      ensures Valid()
      ensures tracker.activities == AppendAll(old(tracker.activities), PendingRecords(entries, now))
    {
      ghost var log0 := tracker.activities;
      var i := 0;
      while i < |entries|
        invariant 0 <= i <= |entries|
        invariant Valid()
        invariant AppendAll(tracker.activities, PendingRecords(entries[i..], now)) == AppendAll(log0, PendingRecords(entries, now))
      {
        ghost var before := tracker.activities;
        assert entries[i..][0] == entries[i] && entries[i..][1..] == entries[i + 1..];
        ghost var rest := if EntryStops(entries[i]) then [] else PendingRecords(entries[i + 1..], now);
        AppendAllConcat(before, EntryRecords(entries[i], now), rest);
        var stop := VerifyPendingPost(entries[i], now);
        if stop {
          return;
        }
        i := i + 1;
      }
    }

    /** checkPendingPosts; `profile` is what the profile request yields. */
    method CheckPendingPosts(profile: ProfileIO, now: int)
      requires Valid()
      modifies tracker
      ensures Valid()
      ensures tracker.activities == AppendAll(old(tracker.activities), ProfileRecords(profile, now))
    {
      match profile
      case ProfileFailed(m) =>
        tracker.TrackError(Some("Exception checking pending posts: " + m), now);
        AppendAllOne(old(tracker.activities), PendingFailure(m, now));
      case NoPendingPosts =>
      case PendingPosts(entries) =>
        VerifyPendingPosts(entries, now);
    }

    /** handleVerification; `v` is the challenge of the create-post response and its outcome. */
    method HandleVerification(v: VerificationIO, now: int)
      requires Valid()
      modifies tracker
      ensures Valid()
      ensures tracker.activities == AppendAll(old(tracker.activities), VerificationRecords(v, now))
    {
      var failure: Option<string> := None;
      match v {
        case NoChallenge =>
        case ChallengeMalformed(m) =>
          failure := Some(m);
        case Challenge(reply, verify) =>
          var answer := NormalizeAnswer(reply);
          if answer.Err? {
            failure := Some(answer.message);
          } else if verify.Failed? {
            failure := Some(verify.message);
          }
      }
      if failure.Some? {
        tracker.TrackError(Some("Verification failed: " + failure.value), now);
        AppendAllOne(old(tracker.activities), ErrorRecord(Some("Verification failed: " + failure.value), now));
      }
    }

    /** The createPost block of postAboutCapabilities, with the cleaned content. */
    method CreateCapabilityPost(content: string, io: PostIO)
      requires Valid()
      modifies this, tracker
      ensures Valid()
      ensures State() == PostAttempt(old(State()), content, io).state
      ensures tracker.activities == AppendAll(old(tracker.activities), PostAttempt(old(State()), content, io).records)
    {
      ghost var log0 := tracker.activities;
      match io.created
      case Fetched(response) =>
        var now := io.postedAt;
        lastPostTime := Some(now);
        if response.Some? && Contains(response.value, "verification_required") {
          HandleVerification(io.verification, now);
        }
        ghost var verification := tracker.activities;
        var postId := if response.Some? && Contains(response.value, "id") then "new-post" else "pending";
        tracker.TrackPost(Some(postId), Some(PostTitle), Some(content), now);
        AppendAllSnoc(log0, if response.Some? && Contains(response.value, "verification_required") then VerificationRecords(io.verification, now) else [],
                      PostRecord(Some(postId), Some(PostTitle), Some(content), true, now));
      case FetchFailed(m) =>
        var now := io.failedAt;
        if IsRateLimit(m) {
          UpdateCooldownFromError(m, true, now);
          tracker.TrackPostWithStatus(Some("rate-limited"), Some(PostTitle), Some(content), false, now);
          tracker.TrackError(Some("Rate limit hit when posting about capabilities"), now);
          AppendAllTwo(log0, PostRecord(Some("rate-limited"), Some(PostTitle), Some(content), false, now),
                       ErrorRecord(Some("Rate limit hit when posting about capabilities"), now));
        } else {
          tracker.TrackPostWithStatus(Some("error"), Some(PostTitle), Some(content), false, now);
          tracker.TrackError(Some("Failed to post about capabilities: " + m), now);
          tracker.TrackError(Some("Exception posting about capabilities: " + m), now);
          AppendAllThree(log0, PostRecord(Some("error"), Some(PostTitle), Some(content), false, now),
                         ErrorRecord(Some("Failed to post about capabilities: " + m), now),
                         ErrorRecord(Some("Exception posting about capabilities: " + m), now));
        }
    }

    /** postAboutCapabilities; `io` holds the generated draft and the outcomes of the calls. */
    method PostAboutCapabilities(io: PostIO)
      requires Valid()
      modifies this, tracker
      ensures Valid()
      ensures State() == PostStep(old(State()), io).state
      ensures tracker.activities == AppendAll(old(tracker.activities), PostStep(old(State()), io).records)
    {
      var now := io.checkedAt;
      ghost var s0 := State();
      var allowed := CanPost(now);
      if !allowed {
        var minutesRemaining := GetMinutesUntilCanPost(now);
        return;
      }
      var postContent := Trim(io.draft);
      if |postContent| > 0 && postContent[0] == '"' && postContent[|postContent| - 1] == '"' {
        if |postContent| == 1 {
          var m := "begin 1, end 0, length 1";
          assert StripQuotes(io.draft) == Err(m);
          var failure := ErrorRecord(Some("Exception posting about capabilities: " + m), now);
          assert PostStep(s0, io) == Step(s0, [failure]);
          tracker.TrackError(Some("Exception posting about capabilities: " + m), now);
          AppendAllOne(old(tracker.activities), failure);
          return;
        }
        postContent := postContent[1..|postContent| - 1];
      }
      assert StripQuotes(io.draft) == Ok(postContent);
      assert PostStep(s0, io) == PostAttempt(s0, postContent, io);
      CreateCapabilityPost(postContent, io);
    }

    /** The steps of runHeartbeat after the relevant items have been found. */
    method Engage(input: CycleInput, relevant: seq<FeedItem>)
      requires AllAuthored(relevant) && Valid()
      modifies this, tracker
      ensures Valid()
      ensures State() == HeartbeatRules.Engage(old(State()), input, relevant).state
      ensures tracker.activities == AppendAll(old(tracker.activities), HeartbeatRules.Engage(old(State()), input, relevant).records)
    {
      ghost var s0 := State();
      ghost var log0 := tracker.activities;
      ProcessRelevantItems(relevant, input.items);
      ghost var afterItems := ItemsStep(s0, relevant, input.items);
      SearchForRelevantDiscussions(input.search);
      ghost var searched := State();
      CheckPendingPosts(input.profile, input.pendingAt);
      ghost var pending := ProfileRecords(input.profile, input.pendingAt);
      AppendAllConcat(log0, afterItems.records, pending);
      if semanticSearchResultCount == 0 {
        PostAboutCapabilities(input.post);
        AppendAllConcat(log0, afterItems.records + pending, PostStep(searched, input.post).records);
      } else {
        assert afterItems.records + pending + [] == afterItems.records + pending;
      }
      lastCheck := Some(input.stampedAt);
    }

    /** runHeartbeat; `input` holds everything the remote service and the model return during the run. */
    method RunHeartbeat(input: CycleInput, now: int)
      requires Valid()
      modifies this, tracker
      ensures Valid()
      ensures State() == Cycle(old(State()), input, now).state
      ensures tracker.activities == AppendAll(old(tracker.activities), Cycle(old(State()), input, now).records)
    {
      if lastCheck.Some? && WholeMinutes(lastCheck.value, now) < DebounceMinutes {
        return;
      }
      if input.status.FetchFailed? || !IsClaimed(input.status.value) {
        lastCheck := Some(input.stampedAt);
        return;
      }
      var feedJson: Option<JsonFeed> := None;
      match input.feed {
        case Fetched(json) =>
          feedJson := Some(json);
        case FetchFailed(m) =>
          if IsAuthFailure(m) && input.fallback.Fetched? {
            feedJson := Some(input.fallback.value);
          }
      }
      if feedJson.None? {
        lastCheck := Some(input.stampedAt);
        return;
      }
      var feed := ParseFeed(feedJson.value);
      var relevantItems := FindRelevantItems(feed);
      if relevantItems.None? {
        lastCheck := Some(input.stampedAt);
        return;
      }
      RelevantItemsAuthored(feed);
      Engage(input, relevantItems.value);
    }

    /** triggerHeartbeat: clears the guard timestamp, then runs. */
    method TriggerHeartbeat(input: CycleInput, now: int)
      requires Valid()
      modifies this, tracker
      ensures Valid()
      ensures State() == Cycle(old(State()).(lastCheck := None), input, now).state
      ensures tracker.activities == AppendAll(old(tracker.activities), Cycle(old(State()).(lastCheck := None), input, now).records)
      ensures lastCheck == Some(input.stampedAt)
    {
      lastCheck := None;
      RunStampsLastCheck(State(), input, now);
      RunHeartbeat(input, now);
    }
  }
}
