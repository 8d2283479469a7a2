# Moltbook car-services agent: the engagement engine, modelled in Dafny

The Moltbook agent is a Spring application that takes part in the Moltbook social network on
behalf of a car-services business. Every few minutes a heartbeat checks that the agent's
account has been claimed, pulls the feed, picks out car-related posts, decides per post
whether to upvote, comment or just observe, runs a semantic search, verifies pending posts by
solving their arithmetic challenge and, when the search found nothing, writes one post about
its capabilities. Posting and commenting respect cooldowns that the server's rate-limit errors
can reset. Every action lands in a bounded, newest-first activity ledger. Beside the engine sit
a static policy that restricts some agent actions, the string templates of the REST client,
and a fixed car catalogue that the agent answers questions from.

This project models that logic and proves properties of it. The remote service, the language
model and the clock are inputs of the model.

| file | module | models |
|---|---|---|
| wrappers.dfy | Wrappers | `Option`, `Result`, a fetched-or-failed remote reply, and a done-or-failed remote call |
| text.dfy | Text | the java.lang.String operations used: contains, indexOf, toLowerCase, trim, startsWith, Integer.parseInt, and the UTF-16 code units that `length()` and `substring` count |
| feed_item.dfy | FeedModel | model/FeedItem.java |
| feed_analyzer.dfy | FeedAnalysis | analyzer/FeedAnalyzer.java |
| policy.dfy | Policy | policy/MoltbookPolicy.java |
| policy_actions.dfy | PolicyActions | policy/PolicyActions.java |
| activity_tracking.dfy | ActivityTracking | service/ActivityTrackingService.java, as a class over a `seq` |
| client.dfy | Client | client/MoltbookClient.java: escaping, request bodies, API-key choice, the key field |
| heartbeat_rules.dfy | HeartbeatRules | client/MoltbookHeartbeat.java as functions of an explicit state: guard, cooldowns, hint parsing, answer normalisation, per-item dispatch, the whole cycle |
| heartbeat.dfy | Heartbeat | client/MoltbookHeartbeat.java as a class whose fields the methods update, each method proved against its function in HeartbeatRules |
| car_service.dfy | CarService | agent/actions/CarServiceActions.java |

Conventions:
- **Time.** Time is an integer number of seconds. Clock readings are inputs, one per step: the
  guard reads `now`; each feed item carries the readings of its cooldown
  check, its comment and its failure path (`ItemIO`); the post step carries the readings of its
  cooldown check, its creation and its failure path (`PostIO`); the run carries the readings of
  the pending-post check and of its closing stamp (`CycleInput`). The ledger records a step writes share
  that step's reading. `Duration.toMinutes` is a
  division by 60 that truncates towards zero, as in Java.
- **Nulls.** A nullable Java string is an `Option<string>`.
- **Remote results.** Every remote result is an input: the agent status, the feed (or its
  failure message), the fallback post list, the per-item comment and upvote outcomes, the
  search, the profile's pending posts and the post creation. The text the language model
  writes is an input too.
- **Order.** Where the source iterates a `Set` or `HashMap` in an unspecified order, the
  order is a parameter that must enumerate the collection.

## Model

| member | source | states |
|---|---|---|
| FeedModel.FullText | src/main/java/io/github/vishalmysore/model/FeedItem.java:64-73 | both parts: title, a space, content; title only: title and a space; content only: content; neither: the empty string |
| FeedModel.FullTextContainsParts | src/main/java/io/github/vishalmysore/model/FeedItem.java:64-73 | a phrase occurring in the title or in the content occurs in the full text |
| FeedAnalysis.ParseFeed | src/main/java/io/github/vishalmysore/analyzer/FeedAnalyzer.java:26-53 | the loop yields exactly `ParsedItems`: the decoded "posts" then the decoded "results", stopping at the first element that fails to decode |
| FeedAnalysis.AppendDecoded | src/main/java/io/github/vishalmysore/analyzer/FeedAnalyzer.java:34-37 | one array loop appends the decodable prefix of the elements and reports whether all of them decoded |
| FeedAnalysis.ParsedItemsPostsThenResults | src/main/java/io/github/vishalmysore/analyzer/FeedAnalyzer.java:32-46 | for well-formed arrays the parsed list is the posts followed by the results |
| FeedAnalysis.ScanKeywords | src/main/java/io/github/vishalmysore/analyzer/FeedAnalyzer.java:91-95 | the early-return scan of a keyword array is true exactly when some keyword occurs in the text |
| FeedAnalysis.LooksCarRelated | src/main/java/io/github/vishalmysore/analyzer/FeedAnalyzer.java:75-107 | null or empty text is false; otherwise true exactly when the lower-cased text contains a direct, brand or term keyword |
| FeedAnalysis.LooksRelevant | src/main/java/io/github/vishalmysore/analyzer/FeedAnalyzer.java:59-69 | the same answer as looksCarRelated for every text, null and empty included |
| FeedAnalysis.RelevanceIgnoresCase | src/main/java/io/github/vishalmysore/analyzer/FeedAnalyzer.java:80 | lower-casing the text first does not change relevance |
| FeedAnalysis.ShortKeywordsMakeRelevant | src/main/java/io/github/vishalmysore/analyzer/FeedAnalyzer.java:83-104 | any text whose lower-cased form contains "ev" or "car" is relevant |
| FeedAnalysis.ItemCarTestImpliesRelevant | src/main/java/io/github/vishalmysore/model/FeedItem.java:78-84 | an item for which isCarRelated holds has relevant full text, since its keywords are among the analyzer's |
| FeedAnalysis.FindRelevantItems | src/main/java/io/github/vishalmysore/analyzer/FeedAnalyzer.java:113-126 | when every relevant item has an author, the loop returns exactly the relevant items in feed order; otherwise the log line's author lookup throws, modelled as no result |
| FeedAnalysis.FindCarRelatedItems | src/main/java/io/github/vishalmysore/analyzer/FeedAnalyzer.java:131-133 | the same outcome as findRelevantItems |
| FeedAnalysis.RelevantItemsExact | src/main/java/io/github/vishalmysore/analyzer/FeedAnalyzer.java:116-118 | an item is in the result exactly when it is in the feed and relevant |
| FeedAnalysis.RelevantItemsInFeedOrder | src/main/java/io/github/vishalmysore/analyzer/FeedAnalyzer.java:116-118 | the result is a subsequence of the feed |
| FeedAnalysis.QuestionsGetComments | src/main/java/io/github/vishalmysore/analyzer/FeedAnalyzer.java:142-148 | text with "?" gives a recommendation comment when it also asks for advice and an info comment otherwise; never a comparison, upvote or observation |
| FeedAnalysis.ComparisonsBeatUpvotes | src/main/java/io/github/vishalmysore/analyzer/FeedAnalyzer.java:151-154 | without "?", a comparison keyword gives a comparison comment whatever the upvotes, null included |
| FeedAnalysis.UpvoteOrObserve | src/main/java/io/github/vishalmysore/analyzer/FeedAnalyzer.java:157-162 | otherwise a null upvote count fails on unboxing; more than 5 upvotes or a praise keyword gives upvote-only, else observe-only |
| Policy.GetRestrictedActions | src/main/java/io/github/vishalmysore/policy/MoltbookPolicy.java:56-58 | the copy holds exactly the names isActionAllowed refuses |
| Policy.GetConfirmationActions | src/main/java/io/github/vishalmysore/policy/MoltbookPolicy.java:64-66 | the copy holds exactly the names requiresConfirmation accepts |
| Policy.PolicySetsDisjoint | src/main/java/io/github/vishalmysore/policy/MoltbookPolicy.java:12-28 | no name is both restricted and confirmation-only |
| Policy.Validate | src/main/java/io/github/vishalmysore/policy/MoltbookPolicy.java:73-89 | refused exactly when restricted, with a reason that names the action; a confirmation action is allowed with the confirmation reason; every other name, unknown ones included, is allowed with "Action allowed" |
| Policy.ConfirmationActionsAreAllowed | src/main/java/io/github/vishalmysore/policy/MoltbookPolicy.java:81-86 | a confirmation action always validates as allowed with the confirmation reason |
| PolicyActions.CheckActionPolicy | src/main/java/io/github/vishalmysore/policy/PolicyActions.java:18-34 | the report starts with the restricted marker exactly when validation refuses, and with the confirmation marker exactly when the action is allowed and needs confirmation; otherwise it is the allowed marker followed by "Action allowed"; a refused action's report carries the restriction reason and note |
| PolicyActions.AppendBullets | src/main/java/io/github/vishalmysore/policy/PolicyActions.java:43-45 | the loop appends one "  • name" line per name, in order |
| PolicyActions.ListRestrictedActions | src/main/java/io/github/vishalmysore/policy/PolicyActions.java:37-50 | header, one bullet line per restricted action in iteration order, footer |
| PolicyActions.ListConfirmationActions | src/main/java/io/github/vishalmysore/policy/PolicyActions.java:53-66 | the same shape over the confirmation set |
| PolicyActions.ListingReadsBack | src/main/java/io/github/vishalmysore/policy/PolicyActions.java:40-49 | a listing of names without line feeds parses back into exactly those names |
| PolicyActions.RestrictedListingHasOneLinePerAction | src/main/java/io/github/vishalmysore/policy/PolicyActions.java:40-49 | the restricted listing has exactly one line per restricted action, and its names are exactly the restricted ones |
| PolicyActions.ConfirmationListingHasOneLinePerAction | src/main/java/io/github/vishalmysore/policy/PolicyActions.java:56-65 | the same for the confirmation listing |
| ActivityTracking.Added | src/main/java/io/github/vishalmysore/service/ActivityTrackingService.java:64-69 | the new activity comes first; below 100 entries the old ones follow unchanged; at 100 the oldest is dropped and the other 99 keep their order; the size never passes 100 |
| ActivityTracking.AppendAllConcat | src/main/java/io/github/vishalmysore/service/ActivityTrackingService.java:64-69 | adding two batches one after the other is adding their concatenation |
| ActivityTracking.AppendAllKeepsNewest | src/main/java/io/github/vishalmysore/service/ActivityTrackingService.java:64-69 | after any sequence of additions the ledger is the newest 100 of the new records, newest first, then the old entries |
| ActivityTracking.FullTurnoverForgetsOldEntries | src/main/java/io/github/vishalmysore/service/ActivityTrackingService.java:66-68 | after more than 100 additions none of the earlier entries remains |
| ActivityTracking.KindCountsSum | src/main/java/io/github/vishalmysore/service/ActivityTrackingService.java:77-80 | the four per-type counts add up to the ledger size |
| ActivityTracking.ShortContent | src/main/java/io/github/vishalmysore/service/ActivityTrackingService.java:110-113 | the short form is counted in UTF-16 code units, as `length()` and `substring` count: null gives no units, more than 200 units gives the first 200 and "...", otherwise all the units; never more than 203 |
| ActivityTracking.ShortContentCutsCharacters | src/main/java/io/github/vishalmysore/service/ActivityTrackingService.java:112 | content made only of characters up to U+FFFF is cut by characters: the short form decodes to the first 200 characters and "...", or to the whole content when it has 200 or fewer |
| ActivityTracking.ShortContentSplitsSurrogatePair | src/main/java/io/github/vishalmysore/service/ActivityTrackingService.java:112 | 199 letters and a car emoji are 200 characters but 201 units, so they are cut; unit 199 is the emoji's lone high surrogate and the short form decodes to no string |
| ActivityTracking.ActivityTrackingService.constructor | src/main/java/io/github/vishalmysore/service/ActivityTrackingService.java:12 | the ledger starts empty |
| ActivityTracking.ActivityTrackingService.AddActivity | src/main/java/io/github/vishalmysore/service/ActivityTrackingService.java:64-69 | the ledger becomes `Added` of the old ledger and the activity, and stays within 100 entries |
| ActivityTracking.ActivityTrackingService.TrackPostWithStatus | src/main/java/io/github/vishalmysore/service/ActivityTrackingService.java:19-28 | adds a POST record with status SUCCESS or FAILED from the flag |
| ActivityTracking.ActivityTrackingService.TrackPost | src/main/java/io/github/vishalmysore/service/ActivityTrackingService.java:15-17 | adds a successful POST record |
| ActivityTracking.ActivityTrackingService.TrackCommentWithStatus | src/main/java/io/github/vishalmysore/service/ActivityTrackingService.java:34-43 | adds a COMMENT record with status SUCCESS or FAILED from the flag |
| ActivityTracking.ActivityTrackingService.TrackComment | src/main/java/io/github/vishalmysore/service/ActivityTrackingService.java:30-32 | adds a successful COMMENT record |
| ActivityTracking.ActivityTrackingService.TrackObservation | src/main/java/io/github/vishalmysore/service/ActivityTrackingService.java:45-53 | adds an OBSERVE record with the fixed content and no status |
| ActivityTracking.ActivityTrackingService.TrackError | src/main/java/io/github/vishalmysore/service/ActivityTrackingService.java:55-62 | adds an ERROR record titled "Error occurred" with no post id and no status |
| ActivityTracking.ActivityTrackingService.GetRecentActivities | src/main/java/io/github/vishalmysore/service/ActivityTrackingService.java:71-73 | the entries, newest first, unchanged |
| ActivityTracking.ActivityTrackingService.GetStats | src/main/java/io/github/vishalmysore/service/ActivityTrackingService.java:75-96 | per-type counts that add up to the total, the total equal to the size, and the last activity equal to the newest entry's time, or "No activity yet" exactly when empty |
| Client.EscapeJsonIsPerCharacter | src/main/java/io/github/vishalmysore/client/MoltbookClient.java:316-326 | the five chained replacements, backslash first, equal the per-character escape, so inserted backslashes are never escaped again |
| Client.EscapeJsonOfNull | src/main/java/io/github/vishalmysore/client/MoltbookClient.java:317-319 | null escapes to the empty string |
| Client.EscapeJsonShape | src/main/java/io/github/vishalmysore/client/MoltbookClient.java:320-325 | the output is the input length plus the number of special characters long and holds no raw line feed, carriage return or tab |
| Client.EscapeJsonIdentity | src/main/java/io/github/vishalmysore/client/MoltbookClient.java:320-325 | a string without the five special characters is unchanged |
| Client.EscapeJsonReadsBack | src/main/java/io/github/vishalmysore/client/MoltbookClient.java:316-326 | a value whose only control characters are line feed, carriage return and tab, once escaped and followed by a closing quote, reads back under the string rules of RFC 8259 as the value and stops at that quote |
| Client.CreatePostBodyReadsBack | src/main/java/io/github/vishalmysore/client/MoltbookClient.java:140-147 | with such values, the post body reads back field by field as submolt, title and content |
| Client.CreateCommentBodyReadsBack | src/main/java/io/github/vishalmysore/client/MoltbookClient.java:177-183 | with such a value, the comment body reads back as the content |
| Client.VerifyPostBodyReadsBack | src/main/java/io/github/vishalmysore/client/MoltbookClient.java:195-201 | with such values, the verification body reads back as code and answer |
| Client.EscapeJsonLeavesControlRaw | src/main/java/io/github/vishalmysore/client/MoltbookClient.java:320-325 | a backspace passes escapeJson raw, so the comment body built from it holds a string an RFC 8259 reader refuses |
| Client.EscapeJsonStrictReadsBack | src/main/java/io/github/vishalmysore/client/MoltbookClient.java:316-326 | the corrected escaper, which also writes every other control character as `\u00XX`, reads back as every value |
| Client.EscapeJsonStrictAgrees | src/main/java/io/github/vishalmysore/client/MoltbookClient.java:320-325 | on a value whose only control characters are line feed, carriage return and tab, the corrected escaper writes what escapeJson writes |
| Client.ResolveApiKey | src/main/java/io/github/vishalmysore/client/MoltbookClient.java:39-56 | the first non-empty key among system property, environment and configured value; absent when none is non-empty |
| Client.MoltbookClient.constructor | src/main/java/io/github/vishalmysore/client/MoltbookClient.java:25-57 | the key field is the resolved key, and hasApiKey holds exactly when some source is non-empty |
| Client.MoltbookClient.SetApiKey | src/main/java/io/github/vishalmysore/client/MoltbookClient.java:331-334 | the key field becomes the argument; hasApiKey holds exactly when it is non-empty |
| Client.MoltbookClient.GetAgentStatus | src/main/java/io/github/vishalmysore/client/MoltbookClient.java:92-98 | without a key the fixed "No API key configured" reply and no request; with a key the remote reply |
| HeartbeatRules.MinutesUntilCanPost | src/main/java/io/github/vishalmysore/client/MoltbookHeartbeat.java:368-375 | never negative, and zero exactly when a post is allowed |
| HeartbeatRules.PostCooldownInSeconds | src/main/java/io/github/vishalmysore/client/MoltbookHeartbeat.java:346-352 | with whole-minute truncation, posting is allowed exactly when 60 times the cooldown seconds have passed |
| HeartbeatRules.CanPostStaysTrue | src/main/java/io/github/vishalmysore/client/MoltbookHeartbeat.java:346-352 | once posting is allowed it stays allowed as time passes |
| HeartbeatRules.CanCommentStaysTrue | src/main/java/io/github/vishalmysore/client/MoltbookHeartbeat.java:357-363 | once commenting is allowed it stays allowed as time passes |
| HeartbeatRules.RetryHint | src/main/java/io/github/vishalmysore/client/MoltbookHeartbeat.java:384-388 | a parsed hint is a 32-bit integer |
| HeartbeatRules.HintReadsNumber | src/main/java/io/github/vishalmysore/client/MoltbookHeartbeat.java:384-388 | digits after the first key, ended by "," or "}", read back as their value |
| HeartbeatRules.CooldownAfterError | src/main/java/io/github/vishalmysore/client/MoltbookHeartbeat.java:380-404 | the run stamp and search count never change; a post error leaves the comment fields alone and a comment error the post fields |
| HeartbeatRules.CooldownAfterErrorReadsHint | src/main/java/io/github/vishalmysore/client/MoltbookHeartbeat.java:380-404 | a readable hint of the right kind sets that cooldown and stamps that time to now; otherwise nothing changes |
| HeartbeatRules.NormalizeAnswer | src/main/java/io/github/vishalmysore/client/MoltbookHeartbeat.java:499-507 | a normalised answer holds only digits and dots |
| HeartbeatRules.NormalizeWithoutDot | src/main/java/io/github/vishalmysore/client/MoltbookHeartbeat.java:503-504 | with no dot left, ".00" is appended |
| HeartbeatRules.NormalizeWithDot | src/main/java/io/github/vishalmysore/client/MoltbookHeartbeat.java:505-507 | with a dot, the split fails exactly when only dots follow it; one character after the first dot gets a "0"; otherwise the answer is unchanged |
| HeartbeatRules.NormalizeWholeNumber | src/main/java/io/github/vishalmysore/client/MoltbookHeartbeat.java:503-504 | "52500" becomes "52500.00" |
| HeartbeatRules.NormalizeOneDecimal | src/main/java/io/github/vishalmysore/client/MoltbookHeartbeat.java:505-506 | "12.3" becomes "12.30" |
| HeartbeatRules.NormalizeTrailingDot | src/main/java/io/github/vishalmysore/client/MoltbookHeartbeat.java:505 | a trailing dot makes the split throw |
| HeartbeatRules.NormalizeIgnoresNoise | src/main/java/io/github/vishalmysore/client/MoltbookHeartbeat.java:499-500 | characters other than digits and dots around the number do not change the result, so "abc1.5xyz" becomes "1.50" |
| HeartbeatRules.StripQuotes | src/main/java/io/github/vishalmysore/client/MoltbookHeartbeat.java:282-285 | trimmed text in quotes loses them, other trimmed text stays; a lone quote makes substring throw |
| HeartbeatRules.StripQuotesOfQuoted | src/main/java/io/github/vishalmysore/client/MoltbookHeartbeat.java:283-285 | a quoted body comes back without its quotes |
| HeartbeatRules.CommentFailureOutcome | src/main/java/io/github/vishalmysore/client/MoltbookHeartbeat.java:189-212 | a rate limit resets the comment cooldown and records a failed comment and one error; any other failure records a failed comment and two errors and changes nothing else |
| HeartbeatRules.CommentAttemptOutcome | src/main/java/io/github/vishalmysore/client/MoltbookHeartbeat.java:177-188 | a successful comment stamps the comment time with the comment's own reading and records one successful comment; a failed upvote after it goes to the failure path |
| HeartbeatRules.ItemStepKeepsOtherFields | src/main/java/io/github/vishalmysore/client/MoltbookHeartbeat.java:145-232 | handling one item touches only the comment fields and records no post |
| HeartbeatRules.ItemStepUpvote | src/main/java/io/github/vishalmysore/client/MoltbookHeartbeat.java:155-158 | upvote-only records nothing and changes nothing |
| HeartbeatRules.ItemStepNullUpvotes | src/main/java/io/github/vishalmysore/client/MoltbookHeartbeat.java:228-231 | a null upvote count records only the processing error |
| HeartbeatRules.ItemStepHeldBack | src/main/java/io/github/vishalmysore/client/MoltbookHeartbeat.java:163-167 | a comment held back by the cooldown records nothing |
| HeartbeatRules.ItemStepComments | src/main/java/io/github/vishalmysore/client/MoltbookHeartbeat.java:160-214 | a comment-worthy item with the cooldown passed takes the comment attempt |
| HeartbeatRules.ItemStepObserved | src/main/java/io/github/vishalmysore/client/MoltbookHeartbeat.java:216-222 | observe-only records one observation |
| HeartbeatRules.NextCommentWaitsForCooldown | src/main/java/io/github/vishalmysore/client/MoltbookHeartbeat.java:177-188 | after a successful comment the last comment time is its reading, and a later check allows a comment exactly when a full cooldown has passed since then |
| HeartbeatRules.SecondCommentOnceCooldownPassed | src/main/java/io/github/vishalmysore/client/MoltbookHeartbeat.java:115-117 | of two comment-worthy items in one run, the second is commented exactly when it is checked a full cooldown after the first comment; every record is a successful comment and the last comment time is that of the later comment |
| HeartbeatRules.ItemsStepKeepsOtherFields | src/main/java/io/github/vishalmysore/client/MoltbookHeartbeat.java:115-117 | the item loop touches only the comment fields |
| HeartbeatRules.ItemsStepRecordsNoPost | src/main/java/io/github/vishalmysore/client/MoltbookHeartbeat.java:115-117 | the item loop records no post |
| HeartbeatRules.SearchCount | src/main/java/io/github/vishalmysore/client/MoltbookHeartbeat.java:426-439 | a failed search counts as zero results |
| HeartbeatRules.PendingRecordsOnePerEntry | src/main/java/io/github/vishalmysore/client/MoltbookHeartbeat.java:475-530 | when every pending post is well-formed and its answer normalises, there is one verified-or-error record per post, in order |
| HeartbeatRules.VerifiedRecordKind | src/main/java/io/github/vishalmysore/client/MoltbookHeartbeat.java:512-526 | a verification records a post on success and an error on failure |
| HeartbeatRules.VerificationRecords | src/main/java/io/github/vishalmysore/client/MoltbookHeartbeat.java:541-587 | at most one record: an error exactly when the challenge is malformed, its answer cannot be normalised, or the verification call fails |
| HeartbeatRules.PostAttemptOutcome | src/main/java/io/github/vishalmysore/client/MoltbookHeartbeat.java:289-332 | success stamps the post time and records a successful post with id "new-post" or "pending"; a rate limit applies the error's cooldown hint and records a failed post and an error; any other failure changes no field and records a failed post and two errors |
| HeartbeatRules.PostStepOutcomes | src/main/java/io/github/vishalmysore/client/MoltbookHeartbeat.java:268-341 | only the post fields can change, and only when the cooldown check allows a post, the post time then becoming the creation or the failure reading; a post held back records nothing; a draft that strips and a creation that goes through restart the cooldown at the creation reading and end with a successful post record |
| HeartbeatRules.GuardSkipsRecentRun | src/main/java/io/github/vishalmysore/client/MoltbookHeartbeat.java:77-81 | a run under 5 whole minutes after the last one changes nothing and records nothing |
| HeartbeatRules.RunStampsLastCheck | src/main/java/io/github/vishalmysore/client/MoltbookHeartbeat.java:85-137 | every run past the guard ends with the run stamp set to the run's closing reading |
| HeartbeatRules.EarlyExitsOnlyStamp | src/main/java/io/github/vishalmysore/client/MoltbookHeartbeat.java:85-106 | a failed or unclaimed status only stamps the run |
| HeartbeatRules.UnconfiguredClientOnlyStamps | src/main/java/io/github/vishalmysore/client/MoltbookHeartbeat.java:85-92 | without an API key the status reply is not "claimed", so the run only stamps |
| HeartbeatRules.AuthFailureFallsBackToPosts | src/main/java/io/github/vishalmysore/client/MoltbookHeartbeat.java:97-106 | a feed failure mentioning "401" or "Authentication required" runs exactly as if the fallback post list had been the feed |
| HeartbeatRules.PostOnlyAfterEmptySearchAndCooldown | src/main/java/io/github/vishalmysore/client/MoltbookHeartbeat.java:127-130 | the post time or post cooldown changes only in a run that was not skipped, whose search found nothing and whose post cooldown check passed, and the post time then becomes the creation or the failure reading |
| HeartbeatRules.CycleRecordsPostsOnlyFromPostSteps | src/main/java/io/github/vishalmysore/client/MoltbookHeartbeat.java:115-130 | with no pending posts and a non-empty search, a run records no post |
| Heartbeat.MoltbookHeartbeat.constructor | src/main/java/io/github/vishalmysore/client/MoltbookHeartbeat.java:37-66 | no run stamp, no post or comment time, the default 120-minute and 20-second cooldowns, zero search results |
| Heartbeat.MoltbookHeartbeat.GetLastCheck | src/main/java/io/github/vishalmysore/client/MoltbookHeartbeat.java:598-600 | the run stamp |
| Heartbeat.MoltbookHeartbeat.CanPost | src/main/java/io/github/vishalmysore/client/MoltbookHeartbeat.java:346-352 | no post time, or at least the cooldown in whole minutes since it |
| Heartbeat.MoltbookHeartbeat.CanComment | src/main/java/io/github/vishalmysore/client/MoltbookHeartbeat.java:357-363 | no comment time, or at least the cooldown in whole seconds since it |
| Heartbeat.MoltbookHeartbeat.GetMinutesUntilCanPost | src/main/java/io/github/vishalmysore/client/MoltbookHeartbeat.java:368-375 | never negative, and zero exactly when a post is allowed |
| Heartbeat.MoltbookHeartbeat.ReadRetryHint | src/main/java/io/github/vishalmysore/client/MoltbookHeartbeat.java:384-388 | the indexOf and substring steps compute `RetryHint` |
| Heartbeat.MoltbookHeartbeat.ReadCooldownHint | src/main/java/io/github/vishalmysore/client/MoltbookHeartbeat.java:382-399 | a post error reads the minutes hint and a comment error the seconds hint, each only when its key is mentioned |
| Heartbeat.MoltbookHeartbeat.UpdateCooldownFromError | src/main/java/io/github/vishalmysore/client/MoltbookHeartbeat.java:380-404 | the fields become `CooldownAfterError` of the old ones |
| Heartbeat.MoltbookHeartbeat.HandleCommentFailure | src/main/java/io/github/vishalmysore/client/MoltbookHeartbeat.java:189-212 | fields and ledger as `CommentFailure` says |
| Heartbeat.MoltbookHeartbeat.AttemptComment | src/main/java/io/github/vishalmysore/client/MoltbookHeartbeat.java:177-213 | fields and ledger as `CommentAttempt` says |
| Heartbeat.MoltbookHeartbeat.ProcessRelevantItem | src/main/java/io/github/vishalmysore/client/MoltbookHeartbeat.java:145-232 | fields and ledger as `ItemStep` says |
| Heartbeat.MoltbookHeartbeat.ProcessRelevantItems | src/main/java/io/github/vishalmysore/client/MoltbookHeartbeat.java:115-117 | the loop, with its own clock readings for each item, leaves fields and ledger as `ItemsStep` says |
| Heartbeat.MoltbookHeartbeat.SearchForRelevantDiscussions | src/main/java/io/github/vishalmysore/client/MoltbookHeartbeat.java:411-441 | the result count becomes `SearchCount`, nothing else changes |
| Heartbeat.MoltbookHeartbeat.VerifyPendingPost | src/main/java/io/github/vishalmysore/client/MoltbookHeartbeat.java:475-530 | one pending post adds its records and reports whether the loop stops |
| Heartbeat.MoltbookHeartbeat.VerifyPendingPosts | src/main/java/io/github/vishalmysore/client/MoltbookHeartbeat.java:475-530 | the loop adds `PendingRecords` of the pending posts |
| Heartbeat.MoltbookHeartbeat.CheckPendingPosts | src/main/java/io/github/vishalmysore/client/MoltbookHeartbeat.java:446-536 | the ledger gains `ProfileRecords` of the profile; no field changes |
| Heartbeat.MoltbookHeartbeat.HandleVerification | src/main/java/io/github/vishalmysore/client/MoltbookHeartbeat.java:541-587 | the ledger gains `VerificationRecords`; no field changes |
| Heartbeat.MoltbookHeartbeat.CreateCapabilityPost | src/main/java/io/github/vishalmysore/client/MoltbookHeartbeat.java:289-332 | fields and ledger as `PostAttempt` says |
| Heartbeat.MoltbookHeartbeat.PostAboutCapabilities | src/main/java/io/github/vishalmysore/client/MoltbookHeartbeat.java:268-341 | fields and ledger as `PostStep` says |
| Heartbeat.MoltbookHeartbeat.Engage | src/main/java/io/github/vishalmysore/client/MoltbookHeartbeat.java:115-132 | fields and ledger as `Engage` says |
| Heartbeat.MoltbookHeartbeat.RunHeartbeat | src/main/java/io/github/vishalmysore/client/MoltbookHeartbeat.java:73-139 | fields and ledger as `Cycle` says |
| Heartbeat.MoltbookHeartbeat.TriggerHeartbeat | src/main/java/io/github/vishalmysore/client/MoltbookHeartbeat.java:592-596 | the run starts with no run stamp, so it is never skipped, and ends stamped with its closing reading |
| CarService.KeysAreLowerCase | src/main/java/io/github/vishalmysore/agent/actions/CarServiceActions.java:20-29 | every catalogue identifier is lower-case |
| CarService.GetCarInfo | src/main/java/io/github/vishalmysore/agent/actions/CarServiceActions.java:32-43 | the car stored under the lower-cased name, or the not-found reply with the key list exactly when there is none |
| CarService.GetCarInfoIgnoresCase | src/main/java/io/github/vishalmysore/agent/actions/CarServiceActions.java:36 | names that differ only in letter case get the same reply |
| CarService.GetCarInfoFindsEveryModel | src/main/java/io/github/vishalmysore/agent/actions/CarServiceActions.java:31-42 | every catalogue model is found, under its identifier in any letter case |
| CarService.UnknownModelMessageNamesEveryModel | src/main/java/io/github/vishalmysore/agent/actions/CarServiceActions.java:37-39 | the not-found reply names every identifier of the catalogue |
| CarService.CompareCars | src/main/java/io/github/vishalmysore/agent/actions/CarServiceActions.java:46-77 | both cars and the recommendation when both names are known; the "One or both car models not found" reply with the key list otherwise |
| CarService.Recommend | src/main/java/io/github/vishalmysore/agent/actions/CarServiceActions.java:67-74 | a "better value" car exactly when the ratings are equal and the prices differ; it is one of the two cars and the cheaper one |
| CarService.RecommendIsSymmetric | src/main/java/io/github/vishalmysore/agent/actions/CarServiceActions.java:67-74 | swapping the two cars does not change the recommendation |
| CarService.RecommendBothGreat | src/main/java/io/github/vishalmysore/agent/actions/CarServiceActions.java:67-74 | a car compared with itself, or two cars rated differently, are both great choices |
| CarService.CompareCarsSwapped | src/main/java/io/github/vishalmysore/agent/actions/CarServiceActions.java:46-77 | swapping the two names swaps the cars and keeps the recommendation |
| CarService.GroupedIsDigitsWithCommas | src/main/java/io/github/vishalmysore/agent/actions/CarServiceActions.java:87-89 | the thousands separators of `%,d` are the only thing added to the decimal digits of a price |
| CarService.AppendPriceLines | src/main/java/io/github/vishalmysore/agent/actions/CarServiceActions.java:86-88 | the stream appends to what is already there the price lines of exactly the cars of the asked type, in iteration order |
| CarService.GetCarPricing | src/main/java/io/github/vishalmysore/agent/actions/CarServiceActions.java:80-96 | over the catalogue's cars in key-iteration order: the header, then one line per car of the asked type, listing exactly the catalogue's cars of that type; the reply always starts with the header and is never the "No cars found" reply |
| CarService.PricingListsExactlyMatchingCars | src/main/java/io/github/vishalmysore/agent/actions/CarServiceActions.java:87-89 | the listed cars are exactly the catalogue cars whose type equals the asked type ignoring case, each once |
| CarService.ListCarTypesNamesEveryModel | src/main/java/io/github/vishalmysore/agent/actions/CarServiceActions.java:99-104 | the model list names every identifier of the catalogue |

## Left out

- HTTP transport, the OkHttp client and every JSON parse are left out: those results are inputs. Calls into the Tools4AI library, the language model and the action-list lookup are left out too, and their text is an input. The language model is taken always to return non-null text; a query that throws or returns null, which ends in the ERROR record of the catch at MoltbookHeartbeat.java:228 (for an item) or :337 (for the capability post), is not modelled.
- Thread.sleep between actions, the @Scheduled timer, logging, and the concurrency of the activity deque are left out.
- HeartbeatRules.CommentAttempt, HeartbeatRules.CommentFailure, HeartbeatRules.PostAttempt and HeartbeatRules.PendingRecords: each `track*` call reads `LocalDateTime.now()` afresh (ActivityTrackingService.java:26, 41, 51, 60), but the model stamps all ledger records of one step with that step's single reading: the comment record with the reading stored as the last comment time, the failure records with one failure reading, the post records with the reading stored as the last post time, and every pending post's record with one pending-check reading. The per-record readings, which differ by the remote calls and sleeps between them, are not modelled.
- The clock readings are unconstrained inputs: the model does not order them or tie them to the two-second sleeps and remote calls between them, so every lemma holds for any readings.
- Exception messages are modelled as non-null strings. A Java exception whose message is null would make `contains` throw inside the catch block itself; that case is not modelled.
- String.toLowerCase and equalsIgnoreCase are modelled on the ASCII letters only.
- Text.ParseInt, and HeartbeatRules.RetryHint through it: Integer.parseInt is modelled on ASCII digits only; the other Unicode decimal digits it also accepts are read as non-digits.
- FeedAnalysis.ParseFeed: the Gson decoding is an input (`JsonFeed`); only the posts-then-results order and the stop at an undecodable element are modelled.
- The prompt texts of buildPrompt and of the verification solver are left out, because they only feed the language model.
- In checkPendingPosts and handleVerification, which pending posts carry a verification object and what their code and challenge are come from the JSON, so they are inputs (`PendingEntry`, `VerificationIO`).
- Client.EscapeJsonReadsBack: proved only for values whose control characters are line feed, carriage return and tab. escapeJson passes every other character below U+0020 raw, and the result is then not a valid JSON string (see Findings).
- Client.CreatePostBodyReadsBack: proved only for arguments of that kind, for the same reason.
- Client.CreateCommentBodyReadsBack: proved only for a content of that kind, for the same reason.
- Client.VerifyPostBodyReadsBack: proved only for a code and an answer of that kind, for the same reason.
- ActivityTracking.ShortContent: the result is a sequence of UTF-16 code units. When the cut splits a surrogate pair, what later code makes of the lone high surrogate is not modelled.
- Policy.Validate: the action name is non-null. A null name makes `Set.contains` throw NullPointerException (MoltbookPolicy.java:40, 49); that case is not modelled.
- Policy.IsActionAllowed: the action name is non-null; `Set.contains(null)` throws, and that is not modelled.
- Policy.RequiresConfirmation: the action name is non-null; `Set.contains(null)` throws, and that is not modelled.
- PolicyActions.CheckActionPolicy: the action name is non-null; a null name throws inside the policy lookups, and that is not modelled.
- CarService.GetCarInfo: the model name is non-null. `toLowerCase` on a null name throws NullPointerException (CarServiceActions.java:36); that case is not modelled.
- CarService.CompareCars: both names are non-null. `toLowerCase` on a null name throws NullPointerException (CarServiceActions.java:50-51); that case is not modelled.
- HeartbeatRules.CooldownAfterError: its own contract states only which fields stay untouched. What the hint does is stated by `CooldownAfterErrorReadsHint`.
- Client: registerAgent, createLinkPost and the get/post/patch/delete transport are left out; they are request plumbing.
- MoltbookActions, the controllers, the startup check, the deprecated HeartbeatService, MoltbookConfig, CarBuySellHumaninLoop and the Gson model classes are left out. They are wiring, constant defaults or data holders.
- CarService: the text layout of getCarInfo and compareCars (the `%-20s` columns and the ruled line) is left out, because it is locale-dependent formatting. Their replies are modelled as the chosen cars and recommendation. `%,d` is modelled with a comma separator, as in an English locale.
- CarService.GetCarPricing: the emptiness test on the buffer never fires. The model therefore has no branch for it; the contract proves that the "No cars found" reply never comes back.
- getBookingStatus returns a fixed mock text around the booking id and is left out.
- explainPolicySystem returns a fixed text and is left out.

## Findings

| source | as written | input that shows it | evidently intended | confidence | as-written member | corrected member |
|---|---|---|---|---|---|---|
| src/main/java/io/github/vishalmysore/client/MoltbookClient.java:316-326 | escapeJson escapes only backslash, quote, line feed, carriage return and tab, so the other characters below U+0020 reach the JSON body raw | a comment whose content is a single backspace (U+0008) | every control character escaped, as section 7 of RFC 8259 requires, so that each body is valid JSON | not executed | Client.EscapeJsonLeavesControlRaw | Client.EscapeJsonStrictReadsBack |

The request bodies keep the escaper as written, because they model what the client sends; the
corrected escaper stands beside them with its own read-back proof.
