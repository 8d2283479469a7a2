/**
 * The decisions of the heartbeat controller (client/MoltbookHeartbeat.java) as functions of its
 * state, the clock reading `now` (whole seconds) and the outcomes of the remote calls. The class
 * in heartbeat.dfy runs the same steps imperatively and is proved to agree with these functions.
 */
module HeartbeatRules {
  import opened Wrappers
  import opened Text
  import opened FeedModel
  import opened FeedAnalysis
  import opened ActivityTracking
  import Client

  // ---------------------------------------------------------------------------
  // Clock arithmetic
  // ---------------------------------------------------------------------------

  /** Java's long division, which truncates toward zero. */
  function JavaDiv(a: int, b: int): int
    requires b > 0
  {
    if a >= 0 then a / b else -((-a) / b)
  }

  /** Whole minutes never decrease as the number of seconds grows. */
  lemma MinutesMonotone(a: int, b: int)
    requires a <= b
    ensures JavaDiv(a, 60) <= JavaDiv(b, 60)
  {
  }

  /** Duration.between(from, to).toMinutes(). */
  function WholeMinutes(from: int, to: int): int {
    JavaDiv(to - from, 60)
  }

  // ---------------------------------------------------------------------------
  // Controller state and cooldowns
  // ---------------------------------------------------------------------------

  const DebounceMinutes: int := 5
  const DefaultPostCooldownMinutes: int := 120
  const DefaultCommentCooldownSeconds: int := 20

  /** The mutable fields of the controller; `None` is a null Instant. */
  datatype HeartbeatState = HeartbeatState(
    lastCheck: Option<int>,
    searchResultCount: int,
    lastPostTime: Option<int>,
    lastCommentTime: Option<int>,
    postCooldownMinutes: int,
    commentCooldownSeconds: int)

  const InitialState: HeartbeatState :=
    HeartbeatState(None, 0, None, None, DefaultPostCooldownMinutes, DefaultCommentCooldownSeconds)

  /** The double-run guard of runHeartbeat. */
  predicate RanRecently(s: HeartbeatState, now: int) {
    s.lastCheck.Some? && WholeMinutes(s.lastCheck.value, now) < DebounceMinutes
  }

  /** canPost. */
  predicate CanPost(s: HeartbeatState, now: int) {
    s.lastPostTime.None? || WholeMinutes(s.lastPostTime.value, now) >= s.postCooldownMinutes
  }

  /** canComment: whole seconds against the comment cooldown. */
  predicate CanComment(s: HeartbeatState, now: int) {
    s.lastCommentTime.None? || now - s.lastCommentTime.value >= s.commentCooldownSeconds
  }

  /** getMinutesUntilCanPost: never negative, and zero exactly when a post is allowed. */
  function MinutesUntilCanPost(s: HeartbeatState, now: int): (r: int)
    ensures r >= 0
    ensures r == 0 <==> CanPost(s, now)
    ensures s.lastPostTime.Some? && r > 0 ==> r == s.postCooldownMinutes - WholeMinutes(s.lastPostTime.value, now)
  {
    if s.lastPostTime.None? then 0
    else
      var passed := WholeMinutes(s.lastPostTime.value, now);
      if s.postCooldownMinutes - passed > 0 then s.postCooldownMinutes - passed else 0
  }

  /** With the clock moving forward, the post cooldown is a plain comparison of seconds. */
  lemma PostCooldownInSeconds(s: HeartbeatState, now: int)
    requires s.lastPostTime.Some? && s.lastPostTime.value <= now
    ensures CanPost(s, now) <==> now - s.lastPostTime.value >= 60 * s.postCooldownMinutes
  {
    var a := now - s.lastPostTime.value;
    var c := s.postCooldownMinutes;
    assert a == 60 * (a / 60) + a % 60 && 0 <= a % 60 < 60;
    if a / 60 >= c {
      assert 60 * (a / 60) >= 60 * c;
    } else {
      assert a / 60 <= c - 1;
      assert 60 * (a / 60) <= 60 * (c - 1);
    }
  }

  /** Once posting is allowed it stays allowed as time passes (until the state changes). */
  lemma CanPostStaysTrue(s: HeartbeatState, now: int, later: int)
    requires now <= later && CanPost(s, now)
    ensures CanPost(s, later)
  {
    if s.lastPostTime.Some? {
      MinutesMonotone(now - s.lastPostTime.value, later - s.lastPostTime.value);
    }
  }

  /** Commenting, likewise. */
  lemma CanCommentStaysTrue(s: HeartbeatState, now: int, later: int)
    requires now <= later && CanComment(s, now)
    ensures CanComment(s, later)
  {
  }

  // ---------------------------------------------------------------------------
  // Error messages of the remote service
  // ---------------------------------------------------------------------------

  predicate IsRateLimit(message: string) {
    Contains(message, "429") || Contains(message, "Too Many Requests")
  }

  predicate IsAuthFailure(message: string) {
    Contains(message, "401") || Contains(message, "Authentication required")
  }

  const MinutesKey: string := "\"retry_after_minutes\":"
  const SecondsKey: string := "\"retry_after_seconds\":"

  lemma HintKeysLength()
    ensures |MinutesKey| == 22 && |SecondsKey| == 22
  {
  }

  /**
   * The number after a retry hint, read as updateCooldownFromError reads it: from 22 characters
   * past the first occurrence of `key` (so from index 21 when `key` is absent) up to the next ','
   * or, failing that, the next '}', trimmed and parsed. `None` is a substring or parse exception.
   */
  function RetryHint(message: string, key: string): (r: Option<int>)
    requires |key| == 22
    ensures r.Some? ==> MinInt32 <= r.value <= MaxInt32
  {
    var start := IndexOf(message, key) + 22;
    var end := HintEnd(message, start);
    if end == -1 then None else ParseInt(Trim(message[start..end]))
  }

  /** Where the number of a hint ends: the next ',' at or after `start`, else the next '}', else -1. */
  function HintEnd(message: string, start: nat): (r: int)
    ensures r == -1 || (start <= r < |message| && message[r] in {',', '}'})
  {
    var comma := IndexOfFrom(message, ",", start);
    if comma == -1 then IndexOfFrom(message, "}", start) else comma
  }

  /** The error message mentions a retry hint in minutes (for posts) or in seconds (for comments). */
  predicate MinutesHinted(message: string) {
    Contains(message, "retry_after_minutes")
  }

  predicate SecondsHinted(message: string) {
    Contains(message, "retry_after_seconds")
  }

  /** The hint updateCooldownFromError acts on: minutes for a post, seconds for a comment; `None` when there is none or it cannot be read. */
  function CooldownHint(message: string, isPost: bool): Option<int> {
    if isPost && MinutesHinted(message) then RetryHint(message, MinutesKey)
    else if !isPost && SecondsHinted(message) then RetryHint(message, SecondsKey)
    else None
  }

  /** updateCooldownFromError: a readable hint of the right kind sets that cooldown and restarts it. */
  function CooldownAfterError(s: HeartbeatState, message: string, isPost: bool, now: int): (r: HeartbeatState)
    ensures r.lastCheck == s.lastCheck && r.searchResultCount == s.searchResultCount
    ensures isPost ==> r.lastCommentTime == s.lastCommentTime && r.commentCooldownSeconds == s.commentCooldownSeconds
    ensures !isPost ==> r.lastPostTime == s.lastPostTime && r.postCooldownMinutes == s.postCooldownMinutes
  {
    match CooldownHint(message, isPost)
    case None => s
    case Some(n) =>
      if isPost then s.(postCooldownMinutes := n, lastPostTime := Some(now))
      else s.(commentCooldownSeconds := n, lastCommentTime := Some(now))
  }

  /** A readable hint of the right kind sets that cooldown and restarts it; anything else changes nothing. */
  lemma CooldownAfterErrorReadsHint(s: HeartbeatState, message: string, isPost: bool, now: int)
    ensures var r := CooldownAfterError(s, message, isPost, now);
            isPost && MinutesHinted(message) && RetryHint(message, MinutesKey).Some? ==>
              r == s.(postCooldownMinutes := RetryHint(message, MinutesKey).value, lastPostTime := Some(now))
    ensures var r := CooldownAfterError(s, message, isPost, now);
            !isPost && SecondsHinted(message) && RetryHint(message, SecondsKey).Some? ==>
              r == s.(commentCooldownSeconds := RetryHint(message, SecondsKey).value, lastCommentTime := Some(now))
    ensures var r := CooldownAfterError(s, message, isPost, now);
            isPost && (!MinutesHinted(message) || RetryHint(message, MinutesKey).None?) ==> r == s
    ensures var r := CooldownAfterError(s, message, isPost, now);
            !isPost && (!SecondsHinted(message) || RetryHint(message, SecondsKey).None?) ==> r == s
  {
  }

  lemma IndexOfAfter(s: string, sub: string, from: nat, at: nat)
    requires |sub| > 0 && from <= at && OccursAt(s, sub, at)
    requires forall i :: from <= i < at ==> !OccursAt(s, sub, i)
    ensures IndexOfFrom(s, sub, from) == at
  {
  }

  /** A first occurrence stays the first occurrence whatever follows it. */
  lemma FirstKeyAt(prefix: string, key: string, tail: string)
    requires |key| > 0 && IndexOf(prefix + key, key) == |prefix|
    ensures IndexOf(prefix + key + tail, key) == |prefix|
  {
    var head := prefix + key;
    var msg := head + tail;
    forall i | 0 <= i <= |prefix|
      ensures OccursAt(msg, key, i) <==> OccursAt(head, key, i)
    {
      assert msg[i..i + |key|] == head[i..i + |key|];
    }
    IndexOfAfter(msg, key, 0, |prefix|);
  }

  /** A one-character substring occurs exactly where that character stands. */
  lemma OccursAtChar(s: string, c: char, i: int)
    ensures OccursAt(s, [c], i) <==> 0 <= i < |s| && s[i] == c
  {
    if 0 <= i < |s| {
      assert s[i..i + 1][0] == s[i];
    }
  }

  lemma NoCharBefore(msg: string, c: char, start: nat, end: nat)
    requires start <= end <= |msg|
    requires forall i :: start <= i < end ==> msg[i] != c
    ensures forall i :: start <= i < end ==> !OccursAt(msg, [c], i)
  {
    forall i | start <= i < end
      ensures !OccursAt(msg, [c], i)
    {
      OccursAtChar(msg, c, i);
    }
  }

  lemma FirstCharAt(msg: string, c: char, start: nat, end: nat)
    requires start <= end < |msg| && msg[end] == c
    requires forall i :: start <= i < end ==> msg[i] != c
    ensures IndexOfFrom(msg, [c], start) == end
  {
    NoCharBefore(msg, c, start, end);
    OccursAtChar(msg, c, end);
    IndexOfAfter(msg, [c], start, end);
  }

  lemma NoCharAfter(msg: string, c: char, start: nat)
    requires forall i :: start <= i < |msg| ==> msg[i] != c
    ensures IndexOfFrom(msg, [c], start) == -1
  {
    forall i | start <= i
      ensures !OccursAt(msg, [c], i)
    {
      OccursAtChar(msg, c, i);
    }
  }

  lemma TerminatorAt(msg: string, start: nat, end: nat)
    requires start <= end < |msg|
    requires forall i :: start <= i < end ==> msg[i] != ',' && msg[i] != '}'
    requires msg[end] == ',' || (msg[end] == '}' && forall i :: end < i < |msg| ==> msg[i] != ',')
    ensures HintEnd(msg, start) == end
  {
    if msg[end] == ',' {
      FirstCharAt(msg, ',', start, end);
    } else {
      NoCharAfter(msg, ',', start);
      FirstCharAt(msg, '}', start, end);
    }
  }

  /** The hint is the number parsed from between `start` and the terminator. */
  lemma RetryHintReads(message: string, key: string, start: nat, end: int, v: int)
    requires |key| == 22 && IndexOf(message, key) + 22 == start && HintEnd(message, start) == end && end != -1
    requires ParseInt(Trim(message[start..end])) == Some(v)
    ensures RetryHint(message, key) == Some(v)
  {
  }

  /** A run of decimal digits inside the 32-bit range parses to the number it denotes. */
  lemma DigitsParse(digits: string)
    requires |digits| > 0 && AllDigits(digits) && DigitsValue(digits) <= MaxInt32
    ensures ParseInt(Trim(digits)) == Some(DigitsValue(digits))
  {
    assert IsDigit(digits[0]) && IsDigit(digits[|digits| - 1]);
    TrimKeepsBoundedString(digits);
  }

  /** Digits at `start` followed by ',' (or by '}' with no ',' after it) end where the digits end. */
  lemma HintEndsAfterDigits(message: string, start: nat, digits: string)
    requires AllDigits(digits)
    requires start + |digits| < |message| && message[start..start + |digits|] == digits
    requires var t := message[start + |digits|];
             t == ',' || (t == '}' && forall i :: start + |digits| < i < |message| ==> message[i] != ',')
    ensures HintEnd(message, start) == start + |digits|
  {
    var end := start + |digits|;
    forall i | start <= i < end
      ensures message[i] != ',' && message[i] != '}'
    {
      assert message[i] == digits[i - start];
    }
    TerminatorAt(message, start, end);
  }

  lemma HintValue(message: string, key: string, start: nat, digits: string)
    requires |key| == 22 && IndexOf(message, key) + 22 == start
    requires |digits| > 0 && AllDigits(digits) && DigitsValue(digits) <= MaxInt32
    requires start + |digits| <= |message| && message[start..start + |digits|] == digits
    requires HintEnd(message, start) == start + |digits|
    ensures RetryHint(message, key) == Some(DigitsValue(digits))
  {
    DigitsParse(digits);
    RetryHintReads(message, key, start, start + |digits|, DigitsValue(digits));
  }

  /**
   * A well-formed hint is read back: when the first occurrence of the key is followed by decimal
   * digits and then ',' (or '}' with no ',' after it), the hint is the number those digits denote.
   */
  lemma HintReadsNumber(message: string, key: string, start: nat, digits: string)
    requires |key| == 22 && IndexOf(message, key) + 22 == start
    requires |digits| > 0 && AllDigits(digits) && DigitsValue(digits) <= MaxInt32
    requires start + |digits| < |message| && message[start..start + |digits|] == digits
    requires var t := message[start + |digits|];
             t == ',' || (t == '}' && forall i :: start + |digits| < i < |message| ==> message[i] != ',')
    ensures RetryHint(message, key) == Some(DigitsValue(digits))
  {
    HintEndsAfterDigits(message, start, digits);
    HintValue(message, key, start, digits);
  }

  // ---------------------------------------------------------------------------
  // Answer normalisation (checkPendingPosts and handleVerification)
  // ---------------------------------------------------------------------------

  predicate IsAnswerChar(c: char) {
    IsDigit(c) || c == '.'
  }

  /** replaceAll("[^0-9.]", ""). */
  function KeepAnswerChars(s: string): (r: string)
    ensures |r| <= |s|
    ensures forall i :: 0 <= i < |r| ==> IsAnswerChar(r[i])
    ensures (forall i :: 0 <= i < |s| ==> IsAnswerChar(s[i])) ==> r == s
    ensures (forall i :: 0 <= i < |s| ==> !IsAnswerChar(s[i])) ==> r == ""
  {
    if |s| == 0 then "" else (if IsAnswerChar(s[0]) then [s[0]] else "") + KeepAnswerChars(s[1..])
  }

  /** Every piece between dots, empty pieces included. */
  function SplitDot(s: string): (r: seq<string>)
    ensures |r| > 0
  {
    if |s| == 0 then [""]
    else if s[0] == '.' then [""] + SplitDot(s[1..])
    else
      var rest := SplitDot(s[1..]);
      [[s[0]] + rest[0]] + rest[1..]
  }

  function DropTrailingEmpty(parts: seq<string>): (r: seq<string>)
    ensures |r| <= |parts| && r == parts[..|r|]
  {
    if |parts| > 0 && parts[|parts| - 1] == "" then DropTrailingEmpty(parts[..|parts| - 1]) else parts
  }

  /** String.split("\\."): the pieces between dots with the trailing empty pieces removed. */
  function JavaSplitDot(s: string): seq<string> {
    if '.' !in s then [s] else DropTrailingEmpty(SplitDot(s))
  }

  /**
   * The answer normalisation both call sites perform: trim, keep digits and dots, then fix the
   * decimals.
   */
  function NormalizeAnswer(reply: string): (r: Result<string>)
    ensures r.Ok? ==> forall i :: 0 <= i < |r.value| ==> IsAnswerChar(r.value[i])
  {
    FixDecimals(KeepAnswerChars(Trim(reply)))
  }

  /**
   * Appends ".00" to an answer without a dot, and "0" when the second dot-separated piece has one
   * character. `Err` is the ArrayIndexOutOfBoundsException of a split with no second piece.
   */
  function FixDecimals(answer: string): (r: Result<string>)
    ensures (forall i :: 0 <= i < |answer| ==> IsAnswerChar(answer[i])) && r.Ok? ==>
              forall i :: 0 <= i < |r.value| ==> IsAnswerChar(r.value[i])
  {
    if '.' !in answer then Ok(answer + ".00")
    else
      var parts := JavaSplitDot(answer);
      if |parts| < 2 then Err("Index 1 out of bounds for length " + (if |parts| == 0 then "0" else "1"))
      else if |parts[1]| == 1 then Ok(answer + "0")
      else Ok(answer)
  }

  lemma {:induction false} SplitAtFirstDot(a: string, b: string)
    requires '.' !in a
    ensures SplitDot(a + "." + b) == [a] + SplitDot(b)
    decreases |a|
  {
    if |a| == 0 {
      assert a + "." + b == "." + b;
      assert ("." + b)[1..] == b;
    } else {
      assert (a + "." + b)[1..] == a[1..] + "." + b;
      SplitAtFirstDot(a[1..], b);
      assert [a[0]] + a[1..] == a;
    }
  }

  lemma {:induction false} DropTrailingEmptyOfCons(x: string, rest: seq<string>)
    ensures DropTrailingEmpty([x] + rest) ==
            (if DropTrailingEmpty(rest) == [] then DropTrailingEmpty([x]) else [x] + DropTrailingEmpty(rest))
    decreases |rest|
  {
    if |rest| > 0 && rest[|rest| - 1] == "" {
      assert ([x] + rest)[..|rest|] == [x] + rest[..|rest| - 1];
      DropTrailingEmptyOfCons(x, rest[..|rest| - 1]);
    }
  }

  lemma {:induction false} DropTrailingEmptyIsEmpty(parts: seq<string>)
    ensures DropTrailingEmpty(parts) == [] <==> forall i :: 0 <= i < |parts| ==> parts[i] == ""
    decreases |parts|
  {
    if |parts| > 0 && parts[|parts| - 1] == "" {
      DropTrailingEmptyIsEmpty(parts[..|parts| - 1]);
      assert forall i :: 0 <= i < |parts| - 1 ==> parts[..|parts| - 1][i] == parts[i];
    }
  }

  predicate AllEmpty(parts: seq<string>) {
    forall i :: 0 <= i < |parts| ==> parts[i] == ""
  }

  predicate AllDots(t: string) {
    forall i :: 0 <= i < |t| ==> t[i] == '.'
  }

  lemma {:induction false} SplitDotAllEmpty(t: string)
    ensures AllEmpty(SplitDot(t)) <==> AllDots(t)
    decreases |t|
  {
    if |t| > 0 {
      SplitDotAllEmpty(t[1..]);
      var rest := SplitDot(t[1..]);
      if t[0] == '.' {
        var sp := SplitDot(t);
        assert sp == [""] + rest;
        if AllEmpty(rest) {
          assert AllEmpty(sp) by {
            forall i | 1 <= i < |sp| ensures sp[i] == "" {
              assert sp[i] == rest[i - 1];
            }
          }
        } else {
          var j :| 0 <= j < |rest| && rest[j] != "";
          assert sp[j + 1] == rest[j];
        }
        if AllDots(t[1..]) {
          assert AllDots(t) by {
            forall i | 1 <= i < |t| ensures t[i] == '.' {
              assert t[i] == t[1..][i - 1];
            }
          }
        } else {
          var j :| 0 <= j < |t| - 1 && t[1..][j] != '.';
          assert t[j + 1] == t[1..][j];
        }
      } else {
        assert SplitDot(t)[0] != "";
      }
    }
  }

  /** The characters of `t` before its first dot. */
  function FirstPiece(t: string): string {
    SplitDot(t)[0]
  }

  /**
   * The decimal fixing of an answer with a dot, split at its first dot: it fails when only dots
   * follow; otherwise it appends "0" exactly when one character stands before the next dot.
   */
  lemma FixDecimalsWithDot(before: string, after: string)
    requires '.' !in before
    ensures FixDecimals(before + "." + after).Err? <==> forall i :: 0 <= i < |after| ==> after[i] == '.'
    ensures FixDecimals(before + "." + after).Ok? && |FirstPiece(after)| == 1 ==>
              FixDecimals(before + "." + after) == Ok(before + "." + after + "0")
    ensures FixDecimals(before + "." + after).Ok? && |FirstPiece(after)| != 1 ==>
              FixDecimals(before + "." + after) == Ok(before + "." + after)
  {
    var answer := before + "." + after;
    assert answer[|before|] == '.';
    SplitAtFirstDot(before, after);
    DropTrailingEmptyOfCons(before, SplitDot(after));
    DropTrailingEmptyIsEmpty(SplitDot(after));
    SplitDotAllEmpty(after);
    var parts := JavaSplitDot(answer);
    if DropTrailingEmpty(SplitDot(after)) != [] {
      assert parts == [before] + DropTrailingEmpty(SplitDot(after));
      assert parts[1] == FirstPiece(after);
    } else {
      assert |parts| <= 1;
    }
  }

  /** The same, for the whole normalisation of a reply whose digits and dots are `before + "." + after`. */
  lemma NormalizeWithDot(reply: string, before: string, after: string)
    requires KeepAnswerChars(Trim(reply)) == before + "." + after && '.' !in before
    ensures NormalizeAnswer(reply).Err? <==> forall i :: 0 <= i < |after| ==> after[i] == '.'
    ensures NormalizeAnswer(reply).Ok? && |FirstPiece(after)| == 1 ==> NormalizeAnswer(reply) == Ok(before + "." + after + "0")
    ensures NormalizeAnswer(reply).Ok? && |FirstPiece(after)| != 1 ==> NormalizeAnswer(reply) == Ok(before + "." + after)
  {
    FixDecimalsWithDot(before, after);
  }

  /** Without a dot, ".00" is appended. */
  lemma NormalizeWithoutDot(reply: string)
    requires '.' !in KeepAnswerChars(Trim(reply))
    ensures NormalizeAnswer(reply) == Ok(KeepAnswerChars(Trim(reply)) + ".00")
  {
  }

  lemma {:induction false} KeepAnswerCharsConcat(a: string, b: string)
    ensures KeepAnswerChars(a + b) == KeepAnswerChars(a) + KeepAnswerChars(b)
    decreases |a|
  {
    if |a| > 0 {
      assert (a + b)[0] == a[0];
      assert (a + b)[1..] == a[1..] + b;
      KeepAnswerCharsConcat(a[1..], b);
    } else {
      assert a + b == b;
    }
  }

  lemma {:induction false} KeepAnswerCharsIgnoresTrimStart(s: string)
    ensures KeepAnswerChars(TrimStart(s)) == KeepAnswerChars(s)
    decreases |s|
  {
    if |s| > 0 && IsTrimmed(s[0]) {
      KeepAnswerCharsIgnoresTrimStart(s[1..]);
    }
  }

  lemma {:induction false} KeepAnswerCharsIgnoresTrimEnd(s: string)
    ensures KeepAnswerChars(TrimEnd(s)) == KeepAnswerChars(s)
    decreases |s|
  {
    if |s| > 0 && IsTrimmed(s[|s| - 1]) {
      var init := s[..|s| - 1];
      KeepAnswerCharsIgnoresTrimEnd(init);
      assert s == init + [s[|s| - 1]];
      KeepAnswerCharsConcat(init, [s[|s| - 1]]);
    }
  }

  /** Trimming removes only characters the digit filter drops anyway. */
  lemma KeepAnswerCharsIgnoresTrim(s: string)
    ensures KeepAnswerChars(Trim(s)) == KeepAnswerChars(s)
  {
    KeepAnswerCharsIgnoresTrimStart(s);
    KeepAnswerCharsIgnoresTrimEnd(TrimStart(s));
  }

  /** Letters, spaces and other noise around the answer make no difference. */
  lemma NormalizeIgnoresNoise(before: string, core: string, after: string)
    requires forall i :: 0 <= i < |before| ==> !IsAnswerChar(before[i])
    requires forall i :: 0 <= i < |after| ==> !IsAnswerChar(after[i])
    ensures NormalizeAnswer(before + core + after) == NormalizeAnswer(core)
  {
    var whole := before + core + after;
    KeepAnswerCharsIgnoresTrim(whole);
    KeepAnswerCharsIgnoresTrim(core);
    KeepAnswerCharsConcat(before + core, after);
    KeepAnswerCharsConcat(before, core);
    assert KeepAnswerChars(before) == "" && KeepAnswerChars(after) == "";
    calc {
      KeepAnswerChars(Trim(whole));
      KeepAnswerChars(whole);
      KeepAnswerChars(before + core) + KeepAnswerChars(after);
      KeepAnswerChars(before) + KeepAnswerChars(core);
      KeepAnswerChars(Trim(core));
    }
  }

  lemma DigitsHaveNoDot(whole: string)
    requires AllDigits(whole)
    ensures '.' !in whole
  {
    forall i | 0 <= i < |whole|
      ensures whole[i] != '.'
    {
      assert IsDigit(whole[i]);
    }
  }

  /** A reply made only of digits and dots reaches the decimal fixing unchanged. */
  lemma AnswerCharsKept(reply: string)
    requires forall i :: 0 <= i < |reply| ==> IsAnswerChar(reply[i])
    ensures NormalizeAnswer(reply) == FixDecimals(reply)
  {
    KeepAnswerCharsIgnoresTrim(reply);
  }

  /** A whole part, a dot and a fraction, all digits, is made of answer characters only. */
  lemma DecimalIsAnswerChars(whole: string, fraction: string)
    requires AllDigits(whole) && AllDigits(fraction)
    ensures forall i :: 0 <= i < |whole + "." + fraction| ==> IsAnswerChar((whole + "." + fraction)[i])
  {
    var reply := whole + "." + fraction;
    forall i | 0 <= i < |reply|
      ensures IsAnswerChar(reply[i])
    {
      if i < |whole| {
        assert reply[i] == whole[i];
      } else if i > |whole| {
        assert reply[i] == fraction[i - |whole| - 1];
      }
    }
  }

  /** A whole number gains two decimals ("52500" gives "52500.00"). */
  lemma NormalizeWholeNumber(whole: string)
    requires AllDigits(whole)
    ensures NormalizeAnswer(whole) == Ok(whole + ".00")
  {
    AnswerCharsKept(whole);
    DigitsHaveNoDot(whole);
  }

  lemma SplitDotOfChar(c: char)
    requires c != '.'
    ensures SplitDot([c]) == [[c]]
  {
    var rest := SplitDot([c][1..]);
    assert [c][1..] == "" && rest == [""];
    assert [c] + rest[0] == [c] && rest[1..] == [];
  }

  lemma FixDecimalsOneDecimal(whole: string, digit: char)
    requires '.' !in whole && digit != '.'
    ensures FixDecimals(whole + "." + [digit]) == Ok(whole + "." + [digit] + "0")
  {
    SplitDotOfChar(digit);
    assert |FirstPiece([digit])| == 1;
    FixDecimalsWithDot(whole, [digit]);
  }

  /** A single decimal gains a zero ("12.3" gives "12.30"). */
  lemma NormalizeOneDecimal(whole: string, digit: char)
    requires AllDigits(whole) && IsDigit(digit)
    ensures NormalizeAnswer(whole + "." + [digit]) == Ok(whole + "." + [digit] + "0")
  {
    DecimalIsAnswerChars(whole, [digit]);
    AnswerCharsKept(whole + "." + [digit]);
    DigitsHaveNoDot(whole);
    FixDecimalsOneDecimal(whole, digit);
  }

  /** A trailing dot with nothing after it fails in the split ("5." has no second piece). */
  lemma NormalizeTrailingDot(whole: string)
    requires AllDigits(whole)
    ensures NormalizeAnswer(whole + ".").Err?
  {
    assert whole + "." + "" == whole + ".";
    DecimalIsAnswerChars(whole, "");
    AnswerCharsKept(whole + ".");
    DigitsHaveNoDot(whole);
    FixDecimalsWithDot(whole, "");
  }

  // ---------------------------------------------------------------------------
  // Quote stripping of the generated post text (postAboutCapabilities)
  // ---------------------------------------------------------------------------

  /**
   * The draft, trimmed, without one pair of enclosing double quotes. `Err` is the
   * StringIndexOutOfBoundsException of substring(1, 0) on a lone quote.
   */
  function StripQuotes(draft: string): (r: Result<string>)
    ensures r.Err? <==> Trim(draft) == "\""
    ensures r.Ok? ==> Trim(draft) == r.value || Trim(draft) == "\"" + r.value + "\""
  {
    Unquote(Trim(draft))
  }

  /** Removes one pair of enclosing double quotes; a lone quote is the exception of `substring(1, 0)`. */
  function Unquote(t: string): (r: Result<string>)
    ensures r.Err? <==> t == "\""
    ensures r.Ok? ==> t == r.value || t == "\"" + r.value + "\""
  {
    if |t| > 0 && t[0] == '"' && t[|t| - 1] == '"' then
      if |t| == 1 then Err("begin 1, end 0, length 1")
      else
        var body := t[1..|t| - 1];
        assert t == [t[0]] + body + [t[|t| - 1]];
        Ok(body)
    else Ok(t)
  }

  /** A quoted draft loses exactly its quotes. */
  lemma StripQuotesOfQuoted(body: string)
    ensures StripQuotes("\"" + body + "\"") == Ok(body)
  {
    var q := "\"" + body + "\"";
    TrimKeepsBoundedString(q);
    assert q[1..|q| - 1] == body;
  }

  // ---------------------------------------------------------------------------
  // Per-item dispatch (processRelevantItem)
  // ---------------------------------------------------------------------------

  /**
   * What processing one item meets: the generated reply, the outcomes of the comment and upvote
   * calls, and the clock readings the processing takes. `checkedAt` is the reading of the cooldown
   * check in canComment; `commentedAt` the one taken when the comment has gone through;
   * `failedAt` the one updateCooldownFromError takes after a failure. A ledger record carries the
   * reading of the step that makes it.
   */
  datatype ItemIO = ItemIO(reply: string, comment: CallResult, upvote: CallResult,
                           checkedAt: int, commentedAt: int, failedAt: int)

  /** A new controller state and the records added to the ledger, in order. */
  datatype Step = Step(state: HeartbeatState, records: seq<Activity>)

  /** The text of the NullPointerException of unboxing a null upvote count. */
  const NullUpvotesMessage: string :=
    "Cannot invoke \"java.lang.Integer.intValue()\" because the return value of \"io.github.vishalmysore.model.FeedItem.getUpvotes()\" is null"

  /** The title recorded for an item: its own, or "Post by " and the author's name. */
  function DisplayTitle(item: FeedItem): string
    requires item.author.Some?
  {
    if item.title.Some? then item.title.value else "Post by " + JavaString(item.author.value.name)
  }

  /** The record of the catch-all handler of processRelevantItem. */
  function ProcessingError(item: FeedItem, message: string, now: int): Activity {
    ErrorRecord(Some("Exception processing post " + JavaString(item.id) + ": " + message), now)
  }

  /** The handler of a failed comment (or of the upvote after it); `now` is the reading taken after the failure. */
  function CommentFailure(s: HeartbeatState, item: FeedItem, reply: string, message: string, now: int): Step
    requires item.author.Some?
  {
    var failed := CommentRecord(item.id, Some(DisplayTitle(item)), Some(reply), false, now);
    if IsRateLimit(message) then
      Step(CooldownAfterError(s, message, false, now),
           [failed, ErrorRecord(Some("Rate limit hit for comment on post " + JavaString(item.id)), now)])
    else
      Step(s, [failed,
               ErrorRecord(Some("Failed to comment on post " + JavaString(item.id) + ": " + message), now),
               ProcessingError(item, message, now)])
  }

  /** A comment attempt past the cooldown check. */
  function CommentAttempt(s: HeartbeatState, item: FeedItem, io: ItemIO): Step
    requires item.author.Some?
  {
    match io.comment
    case Failed(m) => CommentFailure(s, item, io.reply, m, io.failedAt)
    case Done =>
      var commented := s.(lastCommentTime := Some(io.commentedAt));
      match io.upvote
      case Done => Step(commented, [CommentRecord(item.id, Some(DisplayTitle(item)), Some(io.reply), true, io.commentedAt)])
      case Failed(m) => CommentFailure(commented, item, io.reply, m, io.failedAt)
  }

  /** processRelevantItem. */
  function ItemStep(s: HeartbeatState, item: FeedItem, io: ItemIO): Step
    requires item.author.Some?
  {
    var now := io.checkedAt;
    match AnalyzeForEngagement(item)
    case None => Step(s, [ProcessingError(item, NullUpvotesMessage, now)])
    case Some(action) =>
      match action
      case UpvoteOnly =>
        (match io.upvote
         case Done => Step(s, [])
         case Failed(m) => Step(s, [ProcessingError(item, m, now)]))
      case ObserveOnly => Step(s, [ObservationRecord(item.id, Some(DisplayTitle(item)), now)])
      case _ => if CanComment(s, now) then CommentAttempt(s, item, io) else Step(s, [])
  }

  /** `r` differs from `s` at most in the comment fields. */
  predicate CommentFieldsOnly(s: HeartbeatState, r: HeartbeatState) {
    r.lastCheck == s.lastCheck && r.searchResultCount == s.searchResultCount
    && r.lastPostTime == s.lastPostTime && r.postCooldownMinutes == s.postCooldownMinutes
  }

  /** No record of `records` is a POST. */
  predicate NoPosts(records: seq<Activity>) {
    forall k :: 0 <= k < |records| ==> records[k].kind != Post
  }

  /**
   * A failed comment records a failed COMMENT first; after a rate limit it reads the retry hint
   * and adds one ERROR, after any other failure it keeps the state and adds two ERRORs.
   */
  lemma CommentFailureOutcome(s: HeartbeatState, item: FeedItem, reply: string, message: string, now: int)
    requires item.author.Some?
    ensures var r := CommentFailure(s, item, reply, message, now);
            CommentFieldsOnly(s, r.state) && NoPosts(r.records) && |r.records| > 0
            && r.records[0].kind == Comment && r.records[0].status == Some(Status.Failed)
    ensures var r := CommentFailure(s, item, reply, message, now);
            IsRateLimit(message) ==>
              r.state == CooldownAfterError(s, message, false, now) && |r.records| == 2 && r.records[1].kind == Error
    ensures var r := CommentFailure(s, item, reply, message, now);
            !IsRateLimit(message) ==>
              r.state == s && |r.records| == 3 && r.records[1].kind == Error && r.records[2].kind == Error
  {
    if IsRateLimit(message) {
      var r := CommentFailure(s, item, reply, message, now);
      assert r.state == CooldownAfterError(s, message, false, now);
    }
  }

  /** A comment attempt: success restarts the comment cooldown at `commentedAt` and records one successful COMMENT. */
  lemma CommentAttemptOutcome(s: HeartbeatState, item: FeedItem, io: ItemIO)
    requires item.author.Some?
    ensures var r := CommentAttempt(s, item, io);
            CommentFieldsOnly(s, r.state) && NoPosts(r.records)
    ensures var r := CommentAttempt(s, item, io);
            io.comment.Done? && io.upvote.Done? ==>
              r.state == s.(lastCommentTime := Some(io.commentedAt)) && |r.records| == 1
              && r.records[0].kind == Comment && r.records[0].status == Some(Success)
    ensures io.comment.Failed? ==> CommentAttempt(s, item, io) == CommentFailure(s, item, io.reply, io.comment.message, io.failedAt)
  {
    match io.comment
    case Failed(m) =>
      CommentFailureOutcome(s, item, io.reply, m, io.failedAt);
    case Done =>
      var commented := s.(lastCommentTime := Some(io.commentedAt));
      match io.upvote
      case Done =>
      case Failed(m) =>
        CommentFailureOutcome(commented, item, io.reply, m, io.failedAt);
  }

  /** Item processing touches only the comment fields of the state and records no POST. */
  lemma ItemStepKeepsOtherFields(s: HeartbeatState, item: FeedItem, io: ItemIO)
    requires item.author.Some?
    ensures CommentFieldsOnly(s, ItemStep(s, item, io).state)
    ensures NoPosts(ItemStep(s, item, io).records)
  {
    var action := AnalyzeForEngagement(item);
    if action.Some? && IsComment(action.value) && CanComment(s, io.checkedAt) {
      CommentAttemptOutcome(s, item, io);
    }
  }

  /** An item that only earns an upvote records nothing if the upvote goes through. */
  lemma ItemStepUpvote(s: HeartbeatState, item: FeedItem, io: ItemIO)
    requires item.author.Some? && AnalyzeForEngagement(item) == Some(UpvoteOnly) && io.upvote.Done?
    ensures ItemStep(s, item, io) == Step(s, [])
  {
  }

  /** An item without an upvote count fails in the analysis and records one ERROR. */
  lemma ItemStepNullUpvotes(s: HeartbeatState, item: FeedItem, io: ItemIO)
    requires item.author.Some? && AnalyzeForEngagement(item).None?
    ensures ItemStep(s, item, io) == Step(s, [ProcessingError(item, NullUpvotesMessage, io.checkedAt)])
  {
  }

  /** A comment held back by the cooldown at the item's check records nothing. */
  lemma ItemStepHeldBack(s: HeartbeatState, item: FeedItem, io: ItemIO)
    requires item.author.Some?
    requires AnalyzeForEngagement(item).Some? && IsComment(AnalyzeForEngagement(item).value) && !CanComment(s, io.checkedAt)
    ensures ItemStep(s, item, io) == Step(s, [])
  {
  }

  /** A comment past the cooldown at the item's check is attempted. */
  lemma ItemStepComments(s: HeartbeatState, item: FeedItem, io: ItemIO)
    requires item.author.Some?
    requires AnalyzeForEngagement(item).Some? && IsComment(AnalyzeForEngagement(item).value) && CanComment(s, io.checkedAt)
    ensures ItemStep(s, item, io) == CommentAttempt(s, item, io)
  {
  }

  /** An item that is only observed records one OBSERVE and keeps the state. */
  lemma ItemStepObserved(s: HeartbeatState, item: FeedItem, io: ItemIO)
    requires item.author.Some? && AnalyzeForEngagement(item) == Some(ObserveOnly)
    ensures var r := ItemStep(s, item, io);
            r.state == s && |r.records| == 1 && r.records[0].kind == Observe
  {
  }

  /**
   * A comment that went through restarts the comment cooldown at `commentedAt`: a later check
   * allows the next comment exactly when the cooldown's seconds have passed since then.
   */
  lemma NextCommentWaitsForCooldown(s: HeartbeatState, item: FeedItem, io: ItemIO, later: int)
    requires item.author.Some?
    requires AnalyzeForEngagement(item).Some? && IsComment(AnalyzeForEngagement(item).value) && CanComment(s, io.checkedAt)
    requires io.comment.Done? && io.upvote.Done?
    ensures ItemStep(s, item, io).state.lastCommentTime == Some(io.commentedAt)
    ensures CanComment(ItemStep(s, item, io).state, later) <==> later - io.commentedAt >= s.commentCooldownSeconds
  {
    ItemStepComments(s, item, io);
    CommentAttemptOutcome(s, item, io);
  }

  /** Every item of `items` has an author (a guarantee of findRelevantItems). */
  predicate AllAuthored(items: seq<FeedItem>) {
    forall i :: 0 <= i < |items| ==> items[i].author.Some?
  }

  /** The loop of runHeartbeat over the relevant items; the i-th item meets `io(i)`, its own clock readings included. */
  function ItemsStep(s: HeartbeatState, items: seq<FeedItem>, io: nat -> ItemIO): Step
    requires AllAuthored(items)
  {
    if |items| == 0 then Step(s, [])
    else
      var prev := ItemsStep(s, items[..|items| - 1], io);
      var last := ItemStep(prev.state, items[|items| - 1], io(|items| - 1));
      Step(last.state, prev.records + last.records)
  }

  /**
   * Two comment-worthy items whose comments and upvotes go through, the first past the cooldown:
   * the second is commented too exactly when its check comes the cooldown's seconds or more after
   * the first comment, so a run can comment more than once.
   */
  lemma SecondCommentOnceCooldownPassed(s: HeartbeatState, a: FeedItem, b: FeedItem, io: nat -> ItemIO)
    requires a.author.Some? && AnalyzeForEngagement(a).Some? && IsComment(AnalyzeForEngagement(a).value)
    requires b.author.Some? && AnalyzeForEngagement(b).Some? && IsComment(AnalyzeForEngagement(b).value)
    requires CanComment(s, io(0).checkedAt)
    requires io(0).comment.Done? && io(0).upvote.Done? && io(1).comment.Done? && io(1).upvote.Done?
    ensures var r := ItemsStep(s, [a, b], io);
            var passed := io(1).checkedAt - io(0).commentedAt >= s.commentCooldownSeconds;
            (|r.records| == 2 <==> passed)
            && r.state.lastCommentTime == Some(if passed then io(1).commentedAt else io(0).commentedAt)
            && forall k :: 0 <= k < |r.records| ==> r.records[k].kind == Comment && r.records[k].status == Some(Success)
  {
    assert [a, b][..1] == [a] && [a][..0] == [];
    var first := ItemStep(s, a, io(0));
    assert ItemsStep(s, [a], io) == Step(first.state, [] + first.records);
    NextCommentWaitsForCooldown(s, a, io(0), io(1).checkedAt);
    CommentAttemptOutcome(s, a, io(0));
    ItemStepComments(s, a, io(0));
    if io(1).checkedAt - io(0).commentedAt >= s.commentCooldownSeconds {
      ItemStepComments(first.state, b, io(1));
      CommentAttemptOutcome(first.state, b, io(1));
    } else {
      ItemStepHeldBack(first.state, b, io(1));
    }
  }

  /** The item loop never touches the post fields, the guard timestamp or the search count. */
  lemma {:induction false} ItemsStepKeepsOtherFields(s: HeartbeatState, items: seq<FeedItem>, io: nat -> ItemIO)
    requires AllAuthored(items)
    ensures CommentFieldsOnly(s, ItemsStep(s, items, io).state)
    decreases |items|
  {
    if |items| > 0 {
      ItemsStepKeepsOtherFields(s, items[..|items| - 1], io);
      var prev := ItemsStep(s, items[..|items| - 1], io);
      ItemStepKeepsOtherFields(prev.state, items[|items| - 1], io(|items| - 1));
    }
  }

  /** The item loop records no POST. */
  lemma {:induction false} ItemsStepRecordsNoPost(s: HeartbeatState, items: seq<FeedItem>, io: nat -> ItemIO)
    requires AllAuthored(items)
    ensures NoPosts(ItemsStep(s, items, io).records)
    decreases |items|
  {
    if |items| > 0 {
      var init := items[..|items| - 1];
      ItemsStepRecordsNoPost(s, init, io);
      var prev := ItemsStep(s, init, io);
      var last := ItemStep(prev.state, items[|items| - 1], io(|items| - 1));
      ItemStepKeepsOtherFields(prev.state, items[|items| - 1], io(|items| - 1));
      var all := prev.records + last.records;
      assert ItemsStep(s, items, io).records == all;
      forall k | 0 <= k < |all|
        ensures all[k].kind != Post
      {
        if k < |prev.records| { assert all[k] == prev.records[k]; } else { assert all[k] == last.records[k - |prev.records|]; }
      }
    }
  }

  // ---------------------------------------------------------------------------
  // Semantic search, pending posts, the capability post
  // ---------------------------------------------------------------------------

  /** searchForRelevantDiscussions: the number of parsed results, or 0 when the search fails. */
  function SearchCount(search: Fetch<JsonFeed>): (n: nat)
    ensures search.FetchFailed? ==> n == 0
  {
    match search
    case Fetched(json) => |ParsedItems(json)|
    case FetchFailed(_) => 0
  }

  /**
   * One element of the pending_posts array: without a verification object, with a member that
   * cannot be read (the exception ends the whole check), or with a challenge, the generated
   * answer and the outcome of the verification call.
   */
  datatype PendingEntry =
    | NoVerification
    | MalformedEntry(message: string)
    | AwaitingVerification(postId: string, answerReply: string, verify: CallResult)

  /** The profile request: failed, without pending posts, or with the pending_posts array. */
  datatype ProfileIO = ProfileFailed(message: string) | NoPendingPosts | PendingPosts(entries: seq<PendingEntry>)

  function PendingFailure(message: string, now: int): Activity {
    ErrorRecord(Some("Exception checking pending posts: " + message), now)
  }

  /** The record of one verification call. */
  function VerifiedRecord(postId: string, verify: CallResult, now: int): Activity {
    match verify
    case Done => PostRecord(Some(postId), Some("Verified pending post"), Some("Successfully verified post " + postId), true, now)
    case Failed(m) => ErrorRecord(Some("Failed to verify pending post " + postId + ": " + m), now)
  }

  /** The records one element of the pending_posts array adds. */
  function EntryRecords(e: PendingEntry, now: int): seq<Activity> {
    match e
    case NoVerification => []
    case MalformedEntry(m) => [PendingFailure(m, now)]
    case AwaitingVerification(postId, reply, verify) =>
      match NormalizeAnswer(reply)
      case Err(m) => [PendingFailure(m, now)]
      case Ok(_) => [VerifiedRecord(postId, verify, now)]
  }

  /** The element throws, which ends the loop. */
  predicate EntryStops(e: PendingEntry) {
    e.MalformedEntry? || (e.AwaitingVerification? && NormalizeAnswer(e.answerReply).Err?)
  }

  /** The records of the verification loop of checkPendingPosts; an exception ends the loop. */
  function PendingRecords(entries: seq<PendingEntry>, now: int): seq<Activity>
    decreases |entries|
  {
    if |entries| == 0 then []
    else EntryRecords(entries[0], now) + (if EntryStops(entries[0]) then [] else PendingRecords(entries[1..], now))
  }

  /** checkPendingPosts. */
  function ProfileRecords(profile: ProfileIO, now: int): seq<Activity> {
    match profile
    case ProfileFailed(m) => [PendingFailure(m, now)]
    case NoPendingPosts => []
    case PendingPosts(entries) => PendingRecords(entries, now)
  }

  /** An entry with a challenge whose answer normalises. */
  predicate Verifiable(e: PendingEntry) {
    e.AwaitingVerification? && NormalizeAnswer(e.answerReply).Ok?
  }

  /** Entries that all carry a readable challenge. */
  predicate AllVerifiable(entries: seq<PendingEntry>) {
    forall i :: 0 <= i < |entries| ==> Verifiable(entries[i])
  }

  lemma PendingRecordsOfVerifiable(entries: seq<PendingEntry>, now: int)
    requires |entries| > 0 && Verifiable(entries[0])
    ensures PendingRecords(entries, now) ==
            [VerifiedRecord(entries[0].postId, entries[0].verify, now)] + PendingRecords(entries[1..], now)
  {
  }

  /** When every entry is verifiable, each gives exactly one record, a POST exactly when its verification went through. */
  lemma {:induction false} PendingRecordsOnePerEntry(entries: seq<PendingEntry>, now: int)
    requires AllVerifiable(entries)
    ensures |PendingRecords(entries, now)| == |entries|
    ensures forall k :: 0 <= k < |entries| ==>
              PendingRecords(entries, now)[k] == VerifiedRecord(entries[k].postId, entries[k].verify, now)
    decreases |entries|
  {
    if |entries| > 0 {
      var tail := entries[1..];
      assert AllVerifiable(tail) by {
        forall i | 0 <= i < |tail|
          ensures Verifiable(tail[i])
        {
          assert tail[i] == entries[i + 1];
        }
      }
      PendingRecordsOnePerEntry(tail, now);
      PendingRecordsOfVerifiable(entries, now);
      var rest := PendingRecords(tail, now);
      var all := PendingRecords(entries, now);
      forall k | 0 <= k < |entries|
        ensures all[k] == VerifiedRecord(entries[k].postId, entries[k].verify, now)
      {
        if k > 0 {
          assert all[k] == rest[k - 1];
          assert entries[k] == tail[k - 1];
        }
      }
    }
  }

  lemma VerifiedRecordKind(postId: string, verify: CallResult, now: int)
    ensures VerifiedRecord(postId, verify, now).kind == Post <==> verify.Done?
    ensures VerifiedRecord(postId, verify, now).kind == Error <==> verify.Failed?
  {
  }

  /** The verification challenge of a new post, as handleVerification reads it. */
  datatype VerificationIO =
    | NoChallenge
    | ChallengeMalformed(message: string)
    | Challenge(answerReply: string, verify: CallResult)

  /** handleVerification: every failure, and nothing else, is recorded as one ERROR. */
  function VerificationRecords(v: VerificationIO, now: int): (r: seq<Activity>)
    ensures |r| <= 1
    ensures |r| == 1 <==> v.ChallengeMalformed? || (v.Challenge? && (NormalizeAnswer(v.answerReply).Err? || v.verify.Failed?))
    ensures |r| == 1 ==> r[0].kind == Error
  {
    match v
    case NoChallenge => []
    case ChallengeMalformed(m) => [ErrorRecord(Some("Verification failed: " + m), now)]
    case Challenge(reply, verify) =>
      match NormalizeAnswer(reply)
      case Err(m) => [ErrorRecord(Some("Verification failed: " + m), now)]
      case Ok(_) =>
        match verify
        case Done => []
        case Failed(m) => [ErrorRecord(Some("Verification failed: " + m), now)]
  }

  /**
   * What postAboutCapabilities meets: the generated draft, the createPost outcome, the
   * verification, and the clock readings it takes. `checkedAt` is the reading of canPost;
   * `postedAt` the one taken when createPost has gone through; `failedAt` the one
   * updateCooldownFromError takes after a failure.
   */
  datatype PostIO = PostIO(draft: string, created: Fetch<Option<string>>, verification: VerificationIO,
                           checkedAt: int, postedAt: int, failedAt: int)

  const PostTitle: string := "\U{1F916} Your AI Assistant is Here!"

  /** postAboutCapabilities. */
  function PostStep(s: HeartbeatState, io: PostIO): Step {
    if !CanPost(s, io.checkedAt) then Step(s, [])
    else
      match StripQuotes(io.draft)
      case Err(m) => Step(s, [ErrorRecord(Some("Exception posting about capabilities: " + m), io.checkedAt)])
      case Ok(content) => PostAttempt(s, content, io)
  }

  /** The createPost call with the cleaned content and what follows it. */
  function PostAttempt(s: HeartbeatState, content: string, io: PostIO): Step {
    match io.created
    case Fetched(response) =>
      var now := io.postedAt;
      var verification :=
        if response.Some? && Contains(response.value, "verification_required") then VerificationRecords(io.verification, now) else [];
      var postId := if response.Some? && Contains(response.value, "id") then "new-post" else "pending";
      Step(s.(lastPostTime := Some(now)),
           verification + [PostRecord(Some(postId), Some(PostTitle), Some(content), true, now)])
    case FetchFailed(m) =>
      var now := io.failedAt;
      if IsRateLimit(m) then
        Step(CooldownAfterError(s, m, true, now),
             [PostRecord(Some("rate-limited"), Some(PostTitle), Some(content), false, now),
              ErrorRecord(Some("Rate limit hit when posting about capabilities"), now)])
      else
        Step(s, [PostRecord(Some("error"), Some(PostTitle), Some(content), false, now),
                 ErrorRecord(Some("Failed to post about capabilities: " + m), now),
                 ErrorRecord(Some("Exception posting about capabilities: " + m), now)])
  }

  /** `r` differs from `s` at most in the post fields. */
  predicate PostFieldsOnly(s: HeartbeatState, r: HeartbeatState) {
    r.lastCheck == s.lastCheck && r.searchResultCount == s.searchResultCount
    && r.lastCommentTime == s.lastCommentTime && r.commentCooldownSeconds == s.commentCooldownSeconds
  }

  /**
   * A post attempt changes only the post fields, and changes them only to restart the post
   * cooldown at one of its own readings; one that went through ends with one successful POST record.
   */
  lemma PostAttemptOutcome(s: HeartbeatState, content: string, io: PostIO)
    ensures var r := PostAttempt(s, content, io);
            PostFieldsOnly(s, r.state)
            && (r.state != s ==> r.state.lastPostTime == Some(io.postedAt) || r.state.lastPostTime == Some(io.failedAt))
    ensures var r := PostAttempt(s, content, io);
            io.created.Fetched? ==>
              r.state == s.(lastPostTime := Some(io.postedAt)) && |r.records| > 0
              && r.records[|r.records| - 1].kind == Post && r.records[|r.records| - 1].status == Some(Success)
              && r.records[|r.records| - 1].postId in {Some("new-post"), Some("pending")}
    ensures var r := PostAttempt(s, content, io);
            io.created.FetchFailed? && IsRateLimit(io.created.message) ==>
              r.state == CooldownAfterError(s, io.created.message, true, io.failedAt) && |r.records| == 2
              && r.records[0].kind == Post && r.records[0].status == Some(Status.Failed) && r.records[1].kind == Error
    ensures var r := PostAttempt(s, content, io);
            io.created.FetchFailed? && !IsRateLimit(io.created.message) ==>
              r.state == s && |r.records| == 3 && r.records[0].kind == Post && r.records[0].status == Some(Status.Failed)
              && r.records[1].kind == Error && r.records[2].kind == Error
  {
    match io.created
    case Fetched(response) =>
    case FetchFailed(m) =>
      if IsRateLimit(m) {
        CooldownAfterErrorReadsHint(s, m, true, io.failedAt);
        assert PostAttempt(s, content, io).state == CooldownAfterError(s, m, true, io.failedAt);
      }
  }

  /**
   * The capability post changes the post fields only when the cooldown allows posting, and only
   * the post fields; a post that went through restarts the post cooldown and ends with one
   * successful POST record.
   */
  lemma PostStepOutcomes(s: HeartbeatState, io: PostIO)
    ensures var r := PostStep(s, io);
            PostFieldsOnly(s, r.state)
            && (!CanPost(s, io.checkedAt) ==> r == Step(s, []))
            && (r.state != s ==> CanPost(s, io.checkedAt)
                                 && (r.state.lastPostTime == Some(io.postedAt) || r.state.lastPostTime == Some(io.failedAt)))
            && (CanPost(s, io.checkedAt) && StripQuotes(io.draft).Ok? && io.created.Fetched? ==>
                  r.state == s.(lastPostTime := Some(io.postedAt)) && |r.records| > 0
                  && r.records[|r.records| - 1].kind == Post && r.records[|r.records| - 1].status == Some(Success))
  {
    if CanPost(s, io.checkedAt) && StripQuotes(io.draft).Ok? {
      PostAttemptOutcome(s, StripQuotes(io.draft).value, io);
    }
  }

  // ---------------------------------------------------------------------------
  // One run of runHeartbeat
  // ---------------------------------------------------------------------------

  /**
   * The outcomes of every remote and generated input one run can meet, with the clock readings
   * of the run after its guard: those of each item and of the capability post, `pendingAt` for
   * the records of the pending-post check, and `stampedAt`, the reading stored in lastCheck by
   * whichever of the three stamps the run reaches.
   */
  datatype CycleInput = CycleInput(
    status: Fetch<Option<string>>,
    feed: Fetch<JsonFeed>,
    fallback: Fetch<JsonFeed>,
    items: nat -> ItemIO,
    search: Fetch<JsonFeed>,
    profile: ProfileIO,
    post: PostIO,
    pendingAt: int,
    stampedAt: int)

  /** The agent is claimed: the status response holds "status":"claimed". */
  predicate IsClaimed(response: Option<string>) {
    response.Some? && Contains(response.value, "\"status\":\"claimed\"")
  }

  /** The feed body the run works on: the feed, or the global posts after an authentication failure; `None` is an exception. */
  function FeedBody(input: CycleInput): Option<JsonFeed> {
    match input.feed
    case Fetched(json) => Some(json)
    case FetchFailed(m) =>
      if IsAuthFailure(m) then
        match input.fallback
        case Fetched(json) => Some(json)
        case FetchFailed(_) => None
      else None
  }

  /** The part of a run after the feed has been classified: items, search, pending posts, capability post. */
  function Engage(s: HeartbeatState, input: CycleInput, relevant: seq<FeedItem>): Step
    requires AllAuthored(relevant)
  {
    var afterItems := ItemsStep(s, relevant, input.items);
    var count := SearchCount(input.search);
    var searched := afterItems.state.(searchResultCount := count);
    var pending := ProfileRecords(input.profile, input.pendingAt);
    var afterPost := if count == 0 then PostStep(searched, input.post) else Step(searched, []);
    Step(afterPost.state.(lastCheck := Some(input.stampedAt)), afterItems.records + pending + afterPost.records)
  }

  lemma RelevantItemsAuthored(feed: seq<FeedItem>)
    requires AuthorsPresent(feed)
    ensures AllAuthored(RelevantItems(feed))
  {
    forall i | 0 <= i < |RelevantItems(feed)|
      ensures RelevantItems(feed)[i].author.Some?
    {
      RelevantItemsExact(feed, RelevantItems(feed)[i]);
    }
  }

  /** runHeartbeat: the guard at the reading `now`, the claim check, the feed, then the engagement steps. */
  function Cycle(s: HeartbeatState, input: CycleInput, now: int): Step {
    if RanRecently(s, now) then Step(s, [])
    else
      var stamped := s.(lastCheck := Some(input.stampedAt));
      match input.status
      case FetchFailed(_) => Step(stamped, [])
      case Fetched(response) =>
        if !IsClaimed(response) then Step(stamped, [])
        else
          match FeedBody(input)
          case None => Step(stamped, [])
          case Some(json) =>
            var feed := ParsedItems(json);
            if !AuthorsPresent(feed) then Step(stamped, [])
            else
              RelevantItemsAuthored(feed);
              Engage(s, input, RelevantItems(feed))
  }

  /** A run within five minutes of the last one changes nothing and records nothing. */
  lemma GuardSkipsRecentRun(s: HeartbeatState, input: CycleInput, now: int)
    requires RanRecently(s, now)
    ensures Cycle(s, input, now) == Step(s, [])
  {
  }

  /** Every run past the guard ends with lastCheck stamped, whatever the remote service does. */
  lemma RunStampsLastCheck(s: HeartbeatState, input: CycleInput, now: int)
    requires !RanRecently(s, now)
    ensures Cycle(s, input, now).state.lastCheck == Some(input.stampedAt)
  {
  }

  /** A run that cannot get a claimed status, or a usable feed, only stamps lastCheck. */
  lemma EarlyExitsOnlyStamp(s: HeartbeatState, input: CycleInput, now: int)
    requires !RanRecently(s, now)
    requires input.status.FetchFailed? || !IsClaimed(input.status.value)
             || (input.feed.FetchFailed? && !IsAuthFailure(input.feed.message))
             || (input.feed.FetchFailed? && input.fallback.FetchFailed?)
    ensures Cycle(s, input, now) == Step(s.(lastCheck := Some(input.stampedAt)), [])
  {
  }

  /** After an authentication failure of the feed, the run proceeds exactly as if the global posts had been the feed. */
  lemma AuthFailureFallsBackToPosts(s: HeartbeatState, input: CycleInput, now: int)
    requires input.feed.FetchFailed? && IsAuthFailure(input.feed.message) && input.fallback.Fetched?
    ensures Cycle(s, input, now) == Cycle(s, input.(feed := input.fallback), now)
  {
  }

  /**
   * The run changes the post fields only when the run got past the guard, the search found
   * nothing and the post cooldown allowed a post at the canPost check; lastPostTime is then the
   * reading taken after createPost, or the one taken after its failure.
   */
  lemma PostOnlyAfterEmptySearchAndCooldown(s: HeartbeatState, input: CycleInput, now: int)
    requires var r := Cycle(s, input, now).state;
             r.lastPostTime != s.lastPostTime || r.postCooldownMinutes != s.postCooldownMinutes
    ensures !RanRecently(s, now) && SearchCount(input.search) == 0 && CanPost(s, input.post.checkedAt)
    ensures var t := Cycle(s, input, now).state.lastPostTime;
            t == Some(input.post.postedAt) || t == Some(input.post.failedAt)
  {
    var json := FeedBody(input).value;
    var feed := ParsedItems(json);
    RelevantItemsAuthored(feed);
    var relevant := RelevantItems(feed);
    ItemsStepKeepsOtherFields(s, relevant, input.items);
    var afterItems := ItemsStep(s, relevant, input.items);
    var searched := afterItems.state.(searchResultCount := SearchCount(input.search));
    PostStepOutcomes(searched, input.post);
    assert CanPost(searched, input.post.checkedAt) <==> CanPost(s, input.post.checkedAt);
  }

  /** Neither the ledger's POST records nor the post fields come from the item loop. */
  lemma CycleRecordsPostsOnlyFromPostSteps(s: HeartbeatState, input: CycleInput, now: int)
    requires !RanRecently(s, now) && input.status.Fetched? && IsClaimed(input.status.value)
    requires FeedBody(input).Some? && AuthorsPresent(ParsedItems(FeedBody(input).value))
    requires input.profile.NoPendingPosts? && SearchCount(input.search) != 0
    ensures NoPosts(Cycle(s, input, now).records)
  {
    var feed := ParsedItems(FeedBody(input).value);
    RelevantItemsAuthored(feed);
    ItemsStepRecordsNoPost(s, RelevantItems(feed), input.items);
    assert Cycle(s, input, now).records == ItemsStep(s, RelevantItems(feed), input.items).records + [];
  }

  /** The status getAgentStatus returns without an API key is not a claimed status. */
  lemma NoKeyStatusIsNotClaimed()
    ensures !IsClaimed(Some(Client.NoKeyStatus))
  {
    var s := Client.NoKeyStatus;
    var claimed := "\"status\":\"claimed\"";
    forall i | 0 <= i <= |s| - |claimed|
      ensures !OccursAt(s, claimed, i)
    {
      assert s[i + 14] != 'm' == claimed[14];
    }
  }

  /** A client without an API key makes every run past the guard only stamp lastCheck. */
  lemma UnconfiguredClientOnlyStamps(s: HeartbeatState, input: CycleInput, now: int)
    requires !RanRecently(s, now) && input.status == Fetched(Some(Client.NoKeyStatus))
    ensures Cycle(s, input, now) == Step(s.(lastCheck := Some(input.stampedAt)), [])
  {
    NoKeyStatusIsNotClaimed();
  }
}
