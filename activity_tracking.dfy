/** The bounded, newest-first activity ledger (service/ActivityTrackingService.java). */
module ActivityTracking {
  import opened Wrappers
  import opened Text

  /** The `type` strings "POST", "COMMENT", "OBSERVE" and "ERROR". */
  datatype ActivityType = Post | Comment | Observe | Error

  /** The `status` strings "SUCCESS" and "FAILED". */
  datatype Status = Success | Failed

  /**
   * One ledger entry. `timestamp` is the clock reading taken when the entry was made, in whole
   * seconds; an observation and an error carry no status, an error no post id.
   */
  datatype Activity = Activity(
    kind: ActivityType,
    postId: Option<string>,
    title: Option<string>,
    content: Option<string>,
    status: Option<Status>,
    timestamp: int)

  const MaxActivities: nat := 100

  function StatusOf(success: bool): Status {
    if success then Success else Status.Failed
  }

  /** The entry trackPost makes. */
  function PostRecord(postId: Option<string>, title: Option<string>, content: Option<string>, success: bool, now: int): Activity {
    Activity(Post, postId, title, content, Some(StatusOf(success)), now)
  }

  /** The entry trackComment makes. */
  function CommentRecord(postId: Option<string>, postTitle: Option<string>, comment: Option<string>, success: bool, now: int): Activity {
    Activity(Comment, postId, postTitle, comment, Some(StatusOf(success)), now)
  }

  const ObservedContent: string := "Observed but took no action"

  /** The entry trackObservation makes. */
  function ObservationRecord(postId: Option<string>, postTitle: Option<string>, now: int): Activity {
    Activity(Observe, postId, postTitle, Some(ObservedContent), None, now)
  }

  /** The entry trackError makes. */
  function ErrorRecord(errorMessage: Option<string>, now: int): Activity {
    Activity(Error, None, Some("Error occurred"), errorMessage, None, now)
  }

  /**
   * addActivity on the ledger's contents: the new entry goes to the front, and when that makes the
   * ledger longer than the cap, the last (oldest) entry is removed.
   */
  function Added(log: seq<Activity>, a: Activity): (r: seq<Activity>)
    ensures |r| > 0 && r[0] == a
    ensures |log| <= MaxActivities ==> |r| <= MaxActivities
    ensures |log| < MaxActivities ==> r == [a] + log
    ensures |log| == MaxActivities ==> |r| == MaxActivities && r[1..] == log[..MaxActivities - 1]
  {
    var grown := [a] + log;
    if |grown| > MaxActivities then grown[..|grown| - 1] else grown
  }

  /** The ledger after adding `records`, first to last. */
  function AppendAll(log: seq<Activity>, records: seq<Activity>): seq<Activity>
    decreases |records|
  {
    if |records| == 0 then log else AppendAll(Added(log, records[0]), records[1..])
  }

  lemma {:induction false} AppendAllConcat(log: seq<Activity>, first: seq<Activity>, second: seq<Activity>)
    ensures AppendAll(log, first + second) == AppendAll(AppendAll(log, first), second)
    decreases |first|
  {
    if |first| > 0 {
      assert (first + second)[0] == first[0];
      assert (first + second)[1..] == first[1..] + second;
      AppendAllConcat(Added(log, first[0]), first[1..], second);
    } else {
      assert first + second == second;
    }
  }

  /** Adding records one at a time: the ledger after `records` and then `a`. */
  lemma AppendAllSnoc(log: seq<Activity>, records: seq<Activity>, a: Activity)
    ensures AppendAll(log, records + [a]) == Added(AppendAll(log, records), a)
  {
    AppendAllConcat(log, records, [a]);
    var mid := AppendAll(log, records);
    assert [a][1..] == [];
    assert AppendAll(mid, [a]) == AppendAll(Added(mid, a), []);
  }

  lemma AppendAllOne(log: seq<Activity>, a: Activity)
    ensures AppendAll(log, [a]) == Added(log, a)
  {
    AppendAllSnoc(log, [], a);
    assert [] + [a] == [a];
  }

  lemma AppendAllTwo(log: seq<Activity>, a: Activity, b: Activity)
    ensures AppendAll(log, [a, b]) == Added(Added(log, a), b)
  {
    AppendAllOne(log, a);
    AppendAllSnoc(log, [a], b);
    assert [a] + [b] == [a, b];
  }

  lemma AppendAllThree(log: seq<Activity>, a: Activity, b: Activity, c: Activity)
    ensures AppendAll(log, [a, b, c]) == Added(Added(Added(log, a), b), c)
  {
    AppendAllTwo(log, a, b);
    AppendAllSnoc(log, [a, b], c);
    assert [a, b] + [c] == [a, b, c];
  }

  function Reverse<T>(s: seq<T>): (r: seq<T>)
    ensures |r| == |s|
    ensures forall i :: 0 <= i < |s| ==> r[i] == s[|s| - 1 - i]
  {
    if |s| == 0 then [] else Reverse(s[1..]) + [s[0]]
  }

  function Min(a: nat, b: nat): nat {
    if a <= b then a else b
  }

  /** Cutting the tail before taking a prefix of the whole makes no difference if enough of it is kept. */
  lemma PrefixOfCutTail<T>(front: seq<T>, tail: seq<T>, k: nat, m: nat)
    requires k <= |tail| && m <= |front| + k
    ensures (front + tail[..k])[..m] == (front + tail)[..m]
  {
    assert (front + tail[..k])[..m] == (front + tail)[..|front| + k][..m];
  }

  /**
   * The ledger always holds the newest entries, newest first: after adding `records` to a ledger
   * within the cap, it is the first hundred of the records reversed followed by the old entries.
   */
  lemma {:induction false} AppendAllKeepsNewest(log: seq<Activity>, records: seq<Activity>)
    requires |log| <= MaxActivities
    ensures AppendAll(log, records) == (Reverse(records) + log)[..Min(MaxActivities, |records| + |log|)]
    decreases |records|
  {
    if |records| == 0 {
      assert (Reverse(records) + log)[..|log|] == log;
    } else {
      var x := records[0];
      var rest := records[1..];
      var grown := [x] + log;
      var k := Min(MaxActivities, |grown|);
      assert Added(log, x) == grown[..k];
      AppendAllKeepsNewest(grown[..k], rest);
      assert Reverse(records) + log == Reverse(rest) + grown;
      PrefixOfCutTail(Reverse(rest), grown, k, Min(MaxActivities, |rest| + k));
    }
  }

  /** Adding 101 entries to any ledger within the cap leaves none of its old entries. */
  lemma FullTurnoverForgetsOldEntries(log: seq<Activity>, records: seq<Activity>)
    requires |log| <= MaxActivities && |records| > MaxActivities
    ensures AppendAll(log, records) == Reverse(records)[..MaxActivities]
  {
    AppendAllKeepsNewest(log, records);
    assert (Reverse(records) + log)[..MaxActivities] == Reverse(records)[..MaxActivities];
  }

  /** Number of entries of kind `k`. */
  function CountKind(log: seq<Activity>, k: ActivityType): (n: nat)
    ensures n <= |log|
  {
    if |log| == 0 then 0 else (if log[0].kind == k then 1 else 0) + CountKind(log[1..], k)
  }

  lemma {:induction false} KindCountsSum(log: seq<Activity>)
    ensures CountKind(log, Post) + CountKind(log, Comment) + CountKind(log, Observe) + CountKind(log, Error) == |log|
  {
    if |log| > 0 {
      KindCountsSum(log[1..]);
    }
  }

  /** The "lastActivity" entry of the statistics. */
  datatype LastActivity = NoActivityYet | LastAt(timestamp: int)

  /** getStats. */
  datatype Stats = Stats(
    totalPosts: nat,
    totalComments: nat,
    totalObservations: nat,
    totalErrors: nat,
    totalActivities: nat,
    lastActivity: LastActivity)

  /**
   * getShortContent: no content reads as nothing, content longer than 200 UTF-16 code units is cut
   * after the 200th unit and marked "...". Java's `length()` and `substring` count code units, so the
   * result is a sequence of code units, and the cut can fall between the two halves of a surrogate pair.
   */
  function ShortContent(a: Activity): (r: seq<nat>)
    ensures a.content.None? ==> r == []
    ensures a.content.Some? && |Utf16(a.content.value)| > 200 ==> r == Utf16(a.content.value)[..200] + Utf16("...")
    ensures a.content.Some? && |Utf16(a.content.value)| <= 200 ==> r == Utf16(a.content.value)
    ensures |r| <= 203
  {
    match a.content
    case None => []
    case Some(c) =>
      var units := Utf16(c);
      if |units| > 200 then units[..200] + Utf16("...") else units
  }

  /**
   * Content whose characters all lie in the Basic Multilingual Plane is cut by characters: the short
   * form decodes to the first 200 characters and "...", or to the content itself when it is shorter.
   */
  lemma ShortContentCutsCharacters(a: Activity)
    requires a.content.Some?
    requires forall i :: 0 <= i < |a.content.value| ==> a.content.value[i] as int < 0x10000
    ensures |a.content.value| > 200 ==> FromUtf16(ShortContent(a)) == Some(a.content.value[..200] + "...")
    ensures |a.content.value| <= 200 ==> FromUtf16(ShortContent(a)) == Some(a.content.value)
  {
    var c := a.content.value;
    Utf16Length(c);
    if |c| > 200 {
      assert c == c[..200] + c[200..];
      Utf16Append(c[..200], c[200..]);
      assert forall i :: 0 <= i < |c[..200]| ==> c[..200][i] as int < 0x10000 by {
        forall i | 0 <= i < |c[..200]| ensures c[..200][i] as int < 0x10000 {
          assert c[..200][i] == c[i];
        }
      }
      Utf16Length(c[..200]);
      assert Utf16(c)[..200] == Utf16(c[..200]);
      Utf16Append(c[..200], "...");
      FromUtf16OfUtf16(c[..200] + "...");
    } else {
      FromUtf16OfUtf16(c);
    }
  }

  /**
   * A content of 199 letters and one car emoji (U+1F697) is 200 characters but 201 code units: it is
   * cut, the kept half of the surrogate pair stays behind as unit 199, and the result decodes to no string.
   */
  lemma ShortContentSplitsSurrogatePair(a: Activity)
    requires a.content == Some(seq(199, _ => 'a') + ['\U{1F697}'])
    ensures |a.content.value| == 200
    ensures |ShortContent(a)| == 203 && ShortContent(a)[199] == 0xD83D
    ensures FromUtf16(ShortContent(a)) == None
  {
    var letters: string := seq(199, _ => 'a');
    var c := letters + ['\U{1F697}'];
    Utf16Length(letters);
    Utf16Append(letters, ['\U{1F697}']);
    assert Utf16(['\U{1F697}']) == [0xD83D, 0xDE97];
    assert |Utf16(c)| == 201;
    var r := ShortContent(a);
    assert r == Utf16(c)[..200] + Utf16("...");
    assert r[199] == 0xD83D;
    assert r[200] == '.' as int;
    UnpairedHighSurrogateRefused(r, 199);
  }

  class ActivityTrackingService {
    /** The deque, front first. */
    var activities: seq<Activity>

    ghost predicate Valid()
      reads this
    {
      |activities| <= MaxActivities
    }

    constructor ()
      ensures Valid() && activities == []
    {
      activities := [];
    }

    /** addActivity. */
    method AddActivity(a: Activity)
      requires Valid()
      modifies this
      ensures Valid()
      ensures activities == Added(old(activities), a)
    {
      activities := [a] + activities;
      if |activities| > MaxActivities {
        activities := activities[..|activities| - 1];
      }
    }

    /** trackPost(postId, title, content, success). */
    method TrackPostWithStatus(postId: Option<string>, title: Option<string>, content: Option<string>, success: bool, now: int)
      requires Valid()
      modifies this
      ensures Valid()
      ensures activities == Added(old(activities), PostRecord(postId, title, content, success, now))
    {
      AddActivity(PostRecord(postId, title, content, success, now));
    }

    /** trackPost(postId, title, content): a successful post. */
    method TrackPost(postId: Option<string>, title: Option<string>, content: Option<string>, now: int)
      requires Valid()
      modifies this
      ensures Valid()
      ensures activities == Added(old(activities), PostRecord(postId, title, content, true, now))
    {
      TrackPostWithStatus(postId, title, content, true, now);
    }

    /** trackComment(postId, postTitle, comment, success). */
    method TrackCommentWithStatus(postId: Option<string>, postTitle: Option<string>, comment: Option<string>, success: bool, now: int)
      requires Valid()
      modifies this
      ensures Valid()
      ensures activities == Added(old(activities), CommentRecord(postId, postTitle, comment, success, now))
    {
      AddActivity(CommentRecord(postId, postTitle, comment, success, now));
    }

    /** trackComment(postId, postTitle, comment): a successful comment. */
    method TrackComment(postId: Option<string>, postTitle: Option<string>, comment: Option<string>, now: int)
      requires Valid()
      modifies this
      ensures Valid()
      ensures activities == Added(old(activities), CommentRecord(postId, postTitle, comment, true, now))
    {
      TrackCommentWithStatus(postId, postTitle, comment, true, now);
    }

    /** trackObservation. */
    method TrackObservation(postId: Option<string>, postTitle: Option<string>, now: int)
      requires Valid()
      modifies this
      ensures Valid()
      ensures activities == Added(old(activities), ObservationRecord(postId, postTitle, now))
    {
      AddActivity(ObservationRecord(postId, postTitle, now));
    }

    /** trackError. */
    method TrackError(errorMessage: Option<string>, now: int)
      requires Valid()
      modifies this
      ensures Valid()
      ensures activities == Added(old(activities), ErrorRecord(errorMessage, now))
    {
      AddActivity(ErrorRecord(errorMessage, now));
    }

    /** getRecentActivities: a copy of the ledger, most recent first. */
    method GetRecentActivities() returns (r: seq<Activity>)
      ensures r == activities
      ensures forall i :: 0 <= i < |r| ==> r[i] == activities[i]
    {
      r := activities;
    }

    /**
     * getStats: per-type counts that add up to the ledger's size, and the timestamp of the newest
     * entry, or "No activity yet" for an empty ledger.
     */
    function GetStats(): (s: Stats)
      reads this
      ensures s.totalPosts + s.totalComments + s.totalObservations + s.totalErrors == s.totalActivities == |activities|
      ensures s.totalPosts == CountKind(activities, Post) && s.totalComments == CountKind(activities, Comment)
      ensures s.totalObservations == CountKind(activities, Observe) && s.totalErrors == CountKind(activities, Error)
      ensures s.lastActivity.NoActivityYet? <==> |activities| == 0
      ensures |activities| > 0 ==> s.lastActivity == LastAt(activities[0].timestamp)
    {
      KindCountsSum(activities);
      Stats(
        CountKind(activities, Post),
        CountKind(activities, Comment),
        CountKind(activities, Observe),
        CountKind(activities, Error),
        |activities|,
        if |activities| == 0 then NoActivityYet else LastAt(activities[0].timestamp))
    }
  }
}
