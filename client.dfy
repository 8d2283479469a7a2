/**
 * The string logic of the REST client (client/MoltbookClient.java): JSON string escaping, the
 * request bodies built from it, where the API key comes from, and the status call without a key.
 * The HTTP requests themselves are outside the model; their results are parameters.
 */
module Client {
  import opened Wrappers
  import opened Text

  // ---------------------------------------------------------------------------
  // escapeJson
  // ---------------------------------------------------------------------------

  /** String.replace of a one-character target: every `target` becomes `replacement`. */
  function ReplaceChar(s: string, target: char, replacement: string): string
    decreases |s|
  {
    if |s| == 0 then "" else (if s[0] == target then replacement else [s[0]]) + ReplaceChar(s[1..], target, replacement)
  }

  /** The five replacements applied in turn, the backslash first. */
  function Chain(s: string): string {
    ReplaceChar(ReplaceChar(ReplaceChar(ReplaceChar(ReplaceChar(s, '\\', "\\\\"), '"', "\\\""), '\n', "\\n"), '\r', "\\r"), '\t', "\\t")
  }

  /** escapeJson: null reads as empty, anything else goes through the replacements. */
  function EscapeJson(value: Option<string>): string {
    match value
    case None => ""
    case Some(v) => Chain(v)
  }

  /** The five characters escapeJson rewrites. */
  predicate IsSpecial(c: char) {
    c == '\\' || c == '"' || c == '\n' || c == '\r' || c == '\t'
  }

  /** What one character becomes when escaped on its own. */
  function EscapeChar(c: char): (r: string)
    ensures IsSpecial(c) ==> |r| == 2 && r[0] == '\\'
    ensures !IsSpecial(c) ==> r == [c]
  {
    match c
    case '\\' => "\\\\"
    case '"' => "\\\""
    case '\n' => "\\n"
    case '\r' => "\\r"
    case '\t' => "\\t"
    case _ => [c]
  }

  /** The reference escaper: each character mapped on its own, left to right. */
  function EscapeEach(s: string): string
    decreases |s|
  {
    if |s| == 0 then "" else EscapeChar(s[0]) + EscapeEach(s[1..])
  }

  /** The number of special characters in `s`. */
  function SpecialCount(s: string): (n: nat)
    ensures n <= |s|
    decreases |s|
  {
    if |s| == 0 then 0 else (if IsSpecial(s[0]) then 1 else 0) + SpecialCount(s[1..])
  }

  lemma {:induction false} ReplaceCharConcat(a: string, b: string, target: char, replacement: string)
    ensures ReplaceChar(a + b, target, replacement) == ReplaceChar(a, target, replacement) + ReplaceChar(b, target, replacement)
    decreases |a|
  {
    if |a| == 0 {
      assert a + b == b;
    } else {
      assert (a + b)[0] == a[0];
      assert (a + b)[1..] == a[1..] + b;
      ReplaceCharConcat(a[1..], b, target, replacement);
    }
  }

  lemma ChainConcat(a: string, b: string)
    ensures Chain(a + b) == Chain(a) + Chain(b)
  {
    var s1a := ReplaceChar(a, '\\', "\\\\");
    var s1b := ReplaceChar(b, '\\', "\\\\");
    ReplaceCharConcat(a, b, '\\', "\\\\");
    var s2a := ReplaceChar(s1a, '"', "\\\"");
    var s2b := ReplaceChar(s1b, '"', "\\\"");
    ReplaceCharConcat(s1a, s1b, '"', "\\\"");
    var s3a := ReplaceChar(s2a, '\n', "\\n");
    var s3b := ReplaceChar(s2b, '\n', "\\n");
    ReplaceCharConcat(s2a, s2b, '\n', "\\n");
    var s4a := ReplaceChar(s3a, '\r', "\\r");
    var s4b := ReplaceChar(s3b, '\r', "\\r");
    ReplaceCharConcat(s3a, s3b, '\r', "\\r");
    ReplaceCharConcat(s4a, s4b, '\t', "\\t");
  }

  /** A replacement whose target does not occur changes nothing. */
  lemma {:induction false} ReplaceCharAbsent(s: string, target: char, replacement: string)
    requires forall i :: 0 <= i < |s| ==> s[i] != target
    ensures ReplaceChar(s, target, replacement) == s
    decreases |s|
  {
    if |s| > 0 {
      ReplaceCharAbsent(s[1..], target, replacement);
    }
  }

  lemma ReplaceCharOne(c: char, target: char, replacement: string)
    ensures ReplaceChar([c], target, replacement) == if c == target then replacement else [c]
  {
    assert [c][1..] == "";
  }

  /** The chain on one character: only the replacement for that character fires; later ones find nothing to replace. */
  lemma ChainOfChar(c: char)
    ensures Chain([c]) == EscapeChar(c)
  {
    ReplaceCharOne(c, '\\', "\\\\");
    var s1 := ReplaceChar([c], '\\', "\\\\");
    if c == '"' {
      ReplaceCharOne(c, '"', "\\\"");
      assert ReplaceChar(s1, '"', "\\\"") == "\\\"";
      ReplaceCharAbsent("\\\"", '\n', "\\n");
      ReplaceCharAbsent("\\\"", '\r', "\\r");
      ReplaceCharAbsent("\\\"", '\t', "\\t");
    } else if c == '\\' {
      ReplaceCharAbsent("\\\\", '"', "\\\"");
      ReplaceCharAbsent("\\\\", '\n', "\\n");
      ReplaceCharAbsent("\\\\", '\r', "\\r");
      ReplaceCharAbsent("\\\\", '\t', "\\t");
    } else {
      ReplaceCharOne(c, '"', "\\\"");
      ReplaceCharOne(c, '\n', "\\n");
      if c == '\n' {
        ReplaceCharAbsent("\\n", '\r', "\\r");
        ReplaceCharAbsent("\\n", '\t', "\\t");
      } else {
        ReplaceCharOne(c, '\r', "\\r");
        if c == '\r' {
          ReplaceCharAbsent("\\r", '\t', "\\t");
        } else {
          ReplaceCharOne(c, '\t', "\\t");
        }
      }
    }
  }

  /**
   * escapeJson is the per-character map: because the backslash is replaced first, the
   * backslashes the later replacements insert are never escaped again.
   */
  lemma {:induction false} EscapeJsonIsPerCharacter(v: string)
    ensures EscapeJson(Some(v)) == EscapeEach(v)
    decreases |v|
  {
    if |v| > 0 {
      assert v == [v[0]] + v[1..];
      ChainConcat([v[0]], v[1..]);
      ChainOfChar(v[0]);
      EscapeJsonIsPerCharacter(v[1..]);
    }
  }

  lemma EscapeJsonOfNull()
    ensures EscapeJson(None) == ""
  {
  }

  /** Each special character grows by one; no raw line feed, carriage return or tab survives. */
  lemma {:induction false} EscapeEachShape(v: string)
    ensures |EscapeEach(v)| == |v| + SpecialCount(v)
    ensures forall i :: 0 <= i < |EscapeEach(v)| ==> EscapeEach(v)[i] !in {'\n', '\r', '\t'}
    decreases |v|
  {
    if |v| > 0 {
      EscapeEachShape(v[1..]);
      var head := EscapeChar(v[0]);
      var rest := EscapeEach(v[1..]);
      forall i | 0 <= i < |head + rest|
        ensures (head + rest)[i] !in {'\n', '\r', '\t'}
      {
        if i >= |head| {
          assert (head + rest)[i] == rest[i - |head|];
        }
      }
    }
  }

  /**
   * The output of escapeJson holds no raw line feed, carriage return or tab, and its length is the
   * input's plus its special characters. The other control characters pass through raw.
   */
  lemma EscapeJsonShape(v: string)
    ensures |EscapeJson(Some(v))| == |v| + SpecialCount(v)
    ensures forall i :: 0 <= i < |EscapeJson(Some(v))| ==> EscapeJson(Some(v))[i] !in {'\n', '\r', '\t'}
  {
    EscapeJsonIsPerCharacter(v);
    EscapeEachShape(v);
  }

  /** escapeJson leaves a string without special characters unchanged. */
  lemma EscapeJsonIdentity(v: string)
    requires forall i :: 0 <= i < |v| ==> !IsSpecial(v[i])
    ensures EscapeJson(Some(v)) == v
  {
    EscapeJsonIsPerCharacter(v);
    EscapeEachIdentity(v);
  }

  lemma {:induction false} EscapeEachIdentity(v: string)
    requires forall i :: 0 <= i < |v| ==> !IsSpecial(v[i])
    ensures EscapeEach(v) == v
    decreases |v|
  {
    if |v| > 0 {
      EscapeEachIdentity(v[1..]);
      assert v == [v[0]] + v[1..];
    }
  }

  // ---------------------------------------------------------------------------
  // Reading an escaped value back
  // ---------------------------------------------------------------------------

  /** The character a two-character JSON escape `\` + c stands for (RFC 8259, section 7). */
  function Unescaped(c: char): Option<char> {
    match c
    case '\\' => Some('\\')
    case '"' => Some('"')
    case '/' => Some('/')
    case 'b' => Some(8 as char)
    case 'f' => Some(12 as char)
    case 'n' => Some('\n')
    case 'r' => Some('\r')
    case 't' => Some('\t')
    case _ => None
  }

  /** The value of a hexadecimal digit, in either case. */
  function HexDigitValue(c: char): (r: Option<nat>)
    ensures r.Some? ==> r.value < 16
  {
    if '0' <= c <= '9' then Some(c as int - '0' as int)
    else if 'a' <= c <= 'f' then Some(c as int - 'a' as int + 10)
    else if 'A' <= c <= 'F' then Some(c as int - 'A' as int + 10)
    else None
  }

  /** The code unit spelt by the four hexadecimal digits at the front of `s`. */
  function Hex4(s: string): (r: Option<nat>)
    ensures r.Some? ==> |s| >= 4 && r.value < 0x10000
  {
    if |s| < 4 then None
    else
      match (HexDigitValue(s[0]), HexDigitValue(s[1]), HexDigitValue(s[2]), HexDigitValue(s[3]))
      case (Some(d0), Some(d1), Some(d2), Some(d3)) => Some(((d0 * 16 + d1) * 16 + d2) * 16 + d3)
      case _ => None
  }

  /**
   * The text after `\u`: four digits naming a character, or a high surrogate's four digits followed
   * by `\u` and a low surrogate's four; the character and the text after the escape.
   */
  function UnicodeEscape(t: string): (r: Option<(char, string)>)
    ensures r.Some? ==> |r.value.1| < |t|
  {
    match Hex4(t)
    case None => None
    case Some(u) =>
      if IsHighSurrogate(u) then
        if |t| >= 10 && t[4] == '\\' && t[5] == 'u' then
          match Hex4(t[6..])
          case Some(l) =>
            if IsLowSurrogate(l) then Some(((0x10000 + (u - 0xD800) * 0x400 + (l - 0xDC00)) as char, t[10..])) else None
          case None => None
        else None
      else if IsLowSurrogate(u) then None
      else Some((u as char, t[4..]))
  }

  /**
   * Reads the body of a JSON string literal up to its closing quote as RFC 8259, section 7, has it:
   * the value and the text after the quote. `None` on an unknown escape, on any raw character below
   * U+0020, or when the closing quote is missing.
   */
  function ReadJsonString(s: string): (r: Option<(string, string)>)
    decreases |s|
  {
    if |s| == 0 then None
    else if s[0] == '"' then Some(("", s[1..]))
    else if s[0] < ' ' then None
    else if s[0] == '\\' then
      if |s| < 2 then None
      else if s[1] == 'u' then
        match UnicodeEscape(s[2..])
        case None => None
        case Some(e) =>
          match ReadJsonString(e.1)
          case None => None
          case Some(p) => Some(([e.0] + p.0, p.1))
      else
        match Unescaped(s[1])
        case None => None
        case Some(c) =>
          match ReadJsonString(s[2..])
          case None => None
          case Some(p) => Some(([c] + p.0, p.1))
    else
      match ReadJsonString(s[1..])
      case None => None
      case Some(p) => Some(([s[0]] + p.0, p.1))
  }

  /** A character escapeJson turns into valid JSON: anything but a control character other than LF, CR and TAB. */
  predicate JsonSafe(c: char) {
    c >= ' ' || IsSpecial(c)
  }

  predicate JsonSafeText(v: string) {
    forall i :: 0 <= i < |v| ==> JsonSafe(v[i])
  }

  /** A nullable argument whose value, if any, is JSON-safe. */
  predicate JsonSafeField(value: Option<string>) {
    value.None? || JsonSafeText(value.value)
  }

  /** The reader turns one escaped character back into the character and carries on after it. */
  lemma ReadOneEscaped(c: char, tail: string)
    requires JsonSafe(c)
    ensures ReadJsonString(EscapeChar(c) + tail) ==
            match ReadJsonString(tail)
            case None => None
            case Some(p) => Some(([c] + p.0, p.1))
  {
    var s := EscapeChar(c) + tail;
    if IsSpecial(c) {
      assert s[0] == '\\' && s[1] != 'u' && Unescaped(s[1]) == Some(c);
      assert s[2..] == tail;
    } else {
      assert s[0] == c && s[1..] == tail;
    }
  }

  /** An escaped JSON-safe value followed by a closing quote reads back as the value, whatever follows. */
  lemma {:induction false} ReadEscaped(v: string, rest: string)
    requires JsonSafeText(v)
    ensures ReadJsonString(EscapeEach(v) + "\"" + rest) == Some((v, rest))
    decreases |v|
  {
    if |v| == 0 {
      assert EscapeEach(v) + "\"" + rest == "\"" + rest;
      assert ("\"" + rest)[1..] == rest;
    } else {
      var tail := EscapeEach(v[1..]) + "\"" + rest;
      assert JsonSafeText(v[1..]) by {
        forall i | 0 <= i < |v[1..]| ensures JsonSafe(v[1..][i]) {
          assert v[1..][i] == v[i + 1];
        }
      }
      ReadEscaped(v[1..], rest);
      assert EscapeEach(v) + "\"" + rest == EscapeChar(v[0]) + tail;
      ReadOneEscaped(v[0], tail);
      assert [v[0]] + v[1..] == v;
    }
  }

  /**
   * escapeJson inside quotes delimits a JSON-safe value exactly: a reader following RFC 8259 gets
   * the value back and stops at the closing quote.
   */
  lemma EscapeJsonReadsBack(v: string, rest: string)
    requires JsonSafeText(v)
    ensures ReadJsonString(EscapeJson(Some(v)) + "\"" + rest) == Some((v, rest))
  {
    EscapeJsonIsPerCharacter(v);
    ReadEscaped(v, rest);
  }

  /**
   * escapeJson leaves the other control characters raw: a comment holding a backspace (U+0008)
   * reaches the body unescaped, and the body's string is not valid JSON.
   */
  lemma EscapeJsonLeavesControlRaw()
    ensures EscapeJson(Some([8 as char])) == [8 as char]
    ensures ReadJsonString(CreateCommentBody(Some([8 as char]))[|CommentOpening|..]) == None
  {
    var c := 8 as char;
    EscapeJsonIsPerCharacter([c]);
    assert EscapeEach([c]) == EscapeChar(c) + EscapeEach([c][1..]);
    var body := CreateCommentBody(Some([c]));
    assert body[|CommentOpening|..] == [c] + "\"}";
  }

  /** The hexadecimal digit for a value below 16. */
  function HexDigit(d: nat): (c: char)
    requires d < 16
    ensures HexDigitValue(c) == Some(d)
  {
    if d < 10 then ('0' as int + d) as char else ('a' as int + d - 10) as char
  }

  /** One character escaped as RFC 8259 demands: the five of escapeJson as it does, every other control character as `\u00XX`. */
  function EscapeCharStrict(c: char): (r: string)
    ensures JsonSafe(c) ==> r == EscapeChar(c)
    ensures !JsonSafe(c) ==> |r| == 6 && r[..2] == "\\u"
  {
    if JsonSafe(c) then EscapeChar(c)
    else "\\u00" + [HexDigit(c as int / 16), HexDigit(c as int % 16)]
  }

  function EscapeEachStrict(s: string): string
    decreases |s|
  {
    if |s| == 0 then "" else EscapeCharStrict(s[0]) + EscapeEachStrict(s[1..])
  }

  /** escapeJson as evidently intended: null reads as empty, every control character is escaped. */
  function EscapeJsonStrict(value: Option<string>): string {
    match value
    case None => ""
    case Some(v) => EscapeEachStrict(v)
  }

  /** The reader turns any one strictly escaped character back into the character. */
  lemma ReadOneEscapedStrict(c: char, tail: string)
    ensures ReadJsonString(EscapeCharStrict(c) + tail) ==
            match ReadJsonString(tail)
            case None => None
            case Some(p) => Some(([c] + p.0, p.1))
  {
    if JsonSafe(c) {
      ReadOneEscaped(c, tail);
    } else {
      var s := EscapeCharStrict(c) + tail;
      var t := s[2..];
      assert t == "00" + [HexDigit(c as int / 16), HexDigit(c as int % 16)] + tail;
      assert Hex4(t) == Some(c as int);
      assert t[4..] == tail;
      assert UnicodeEscape(t) == Some((c, tail));
    }
  }

  /** Strictly escaped and closed by a quote, every value reads back as itself. */
  lemma {:induction false} EscapeJsonStrictReadsBack(v: string, rest: string)
    ensures ReadJsonString(EscapeJsonStrict(Some(v)) + "\"" + rest) == Some((v, rest))
    decreases |v|
  {
    if |v| == 0 {
      assert EscapeEachStrict(v) + "\"" + rest == "\"" + rest;
      assert ("\"" + rest)[1..] == rest;
    } else {
      var tail := EscapeEachStrict(v[1..]) + "\"" + rest;
      EscapeJsonStrictReadsBack(v[1..], rest);
      assert EscapeEachStrict(v) + "\"" + rest == EscapeCharStrict(v[0]) + tail;
      ReadOneEscapedStrict(v[0], tail);
      assert [v[0]] + v[1..] == v;
    }
  }

  /** On a JSON-safe value the strict escaper writes exactly what escapeJson writes. */
  lemma {:induction false} EscapeJsonStrictAgrees(v: string)
    requires JsonSafeText(v)
    ensures EscapeJsonStrict(Some(v)) == EscapeJson(Some(v))
    decreases |v|
  {
    EscapeJsonIsPerCharacter(v);
    if |v| > 0 {
      assert JsonSafeText(v[1..]) by {
        forall i | 0 <= i < |v[1..]| ensures JsonSafe(v[1..][i]) {
          assert v[1..][i] == v[i + 1];
        }
      }
      EscapeJsonStrictAgrees(v[1..]);
      EscapeJsonIsPerCharacter(v[1..]);
    }
  }

  // ---------------------------------------------------------------------------
  // Request bodies
  // ---------------------------------------------------------------------------

  /** A null argument reaches the body as the empty string. */
  function OrEmpty(value: Option<string>): string {
    if value.Some? then value.value else ""
  }

  /** A JSON-safe value escaped and closed by a quote reads back as itself, null as empty. */
  lemma FieldReadsBack(value: Option<string>, rest: string)
    requires JsonSafeField(value)
    ensures ReadJsonString(EscapeJson(value) + "\"" + rest) == Some((OrEmpty(value), rest))
  {
    if value.Some? {
      EscapeJsonReadsBack(value.value, rest);
    } else {
      assert EscapeJson(value) + "\"" + rest == "\"" + rest;
      assert ("\"" + rest)[1..] == rest;
    }
  }

  const CommentOpening: string := "{\"content\":\""

  /** The body of createComment. */
  function CreateCommentBody(content: Option<string>): string {
    CommentOpening + EscapeJson(content) + "\"}"
  }

  /** The comment body is the fixed opening, then the content read back exactly, then "}". */
  lemma CreateCommentBodyReadsBack(content: Option<string>)
    requires JsonSafeField(content)
    ensures var body := CreateCommentBody(content);
            |CommentOpening| <= |body| && body[..|CommentOpening|] == CommentOpening
            && ReadJsonString(body[|CommentOpening|..]) == Some((OrEmpty(content), "}"))
  {
    var body := CreateCommentBody(content);
    assert body == CommentOpening + (EscapeJson(content) + "\"" + "}");
    assert body[|CommentOpening|..] == EscapeJson(content) + "\"" + "}";
    FieldReadsBack(content, "}");
  }

  const PostOpening: string := "{\"submolt\":\""
  const TitleKey: string := ",\"title\":\""
  const ContentKey: string := ",\"content\":\""

  /** The body of createPost. */
  function CreatePostBody(submolt: Option<string>, title: Option<string>, content: Option<string>): string {
    PostOpening + EscapeJson(submolt) + "\"" + TitleKey + EscapeJson(title) + "\"" + ContentKey + EscapeJson(content) + "\"}"
  }

  /** The post body reads back field by field: submolt, then the title key and title, then the content key and content. */
  lemma CreatePostBodyReadsBack(submolt: Option<string>, title: Option<string>, content: Option<string>)
    requires JsonSafeField(submolt) && JsonSafeField(title) && JsonSafeField(content)
    ensures var body := CreatePostBody(submolt, title, content);
            var afterContent := "}";
            var afterTitle := ContentKey + EscapeJson(content) + "\"" + afterContent;
            var afterSubmolt := TitleKey + EscapeJson(title) + "\"" + afterTitle;
            body == PostOpening + EscapeJson(submolt) + "\"" + afterSubmolt
            && ReadJsonString(EscapeJson(submolt) + "\"" + afterSubmolt) == Some((OrEmpty(submolt), afterSubmolt))
            && ReadJsonString(EscapeJson(title) + "\"" + afterTitle) == Some((OrEmpty(title), afterTitle))
            && ReadJsonString(EscapeJson(content) + "\"" + afterContent) == Some((OrEmpty(content), afterContent))
  {
    var afterContent := "}";
    var afterTitle := ContentKey + EscapeJson(content) + "\"" + afterContent;
    var afterSubmolt := TitleKey + EscapeJson(title) + "\"" + afterTitle;
    FieldReadsBack(submolt, afterSubmolt);
    FieldReadsBack(title, afterTitle);
    FieldReadsBack(content, afterContent);
  }

  const VerifyOpening: string := "{\"verification_code\":\""
  const AnswerKey: string := ",\"answer\":\""

  /** The body of verifyPost. */
  function VerifyPostBody(verificationCode: Option<string>, answer: Option<string>): string {
    VerifyOpening + EscapeJson(verificationCode) + "\"" + AnswerKey + EscapeJson(answer) + "\"}"
  }

  /** The verification body reads back as the code, then the answer key and the answer. */
  lemma VerifyPostBodyReadsBack(verificationCode: Option<string>, answer: Option<string>)
    requires JsonSafeField(verificationCode) && JsonSafeField(answer)
    ensures var body := VerifyPostBody(verificationCode, answer);
            var afterAnswer := "}";
            var afterCode := AnswerKey + EscapeJson(answer) + "\"" + afterAnswer;
            body == VerifyOpening + EscapeJson(verificationCode) + "\"" + afterCode
            && ReadJsonString(EscapeJson(verificationCode) + "\"" + afterCode) == Some((OrEmpty(verificationCode), afterCode))
            && ReadJsonString(EscapeJson(answer) + "\"" + afterAnswer) == Some((OrEmpty(answer), afterAnswer))
  {
    var afterAnswer := "}";
    var afterCode := AnswerKey + EscapeJson(answer) + "\"" + afterAnswer;
    FieldReadsBack(verificationCode, afterCode);
    FieldReadsBack(answer, afterAnswer);
  }

  // ---------------------------------------------------------------------------
  // The API key
  // ---------------------------------------------------------------------------

  /** Non-null and non-empty. */
  predicate Present(value: Option<string>) {
    value.Some? && |value.value| > 0
  }

  /**
   * The key the constructor keeps: the system property, else the environment variable, else the
   * configured value, each only when present; null when none is.
   */
  function ResolveApiKey(systemProperty: Option<string>, environment: Option<string>, configured: Option<string>): (r: Option<string>)
    ensures r.Some? <==> Present(systemProperty) || Present(environment) || Present(configured)
    ensures r.Some? ==> Present(r)
    ensures Present(systemProperty) ==> r == systemProperty
    ensures !Present(systemProperty) && Present(environment) ==> r == environment
    ensures !Present(systemProperty) && !Present(environment) ==> r == (if Present(configured) then configured else None)
  {
    if Present(systemProperty) then systemProperty
    else if Present(environment) then environment
    else if Present(configured) then configured
    else None
  }

  /** What getAgentStatus answers without a key, without sending a request. */
  const NoKeyStatus: string := "{\"error\":\"No API key configured\"}"

  class MoltbookClient {
    var apiKey: Option<string>

    /** The key sources are the constructor's inputs: -DMOLTBOOK_API_KEY, $MOLTBOOK_API_KEY, moltbook.api.key. */
    constructor (configuredApiKey: Option<string>, systemProperty: Option<string>, environment: Option<string>)
      ensures apiKey == ResolveApiKey(systemProperty, environment, configuredApiKey)
      ensures HasApiKey() <==> Present(systemProperty) || Present(environment) || Present(configuredApiKey)
    {
      if Present(systemProperty) {
        apiKey := systemProperty;
      } else if Present(environment) {
        apiKey := environment;
      } else if Present(configuredApiKey) {
        apiKey := configuredApiKey;
      } else {
        apiKey := None;
      }
    }

    /** setApiKey. */
    method SetApiKey(apiKey: Option<string>)
      modifies this
      ensures this.apiKey == apiKey
      ensures HasApiKey() <==> Present(apiKey)
    {
      this.apiKey := apiKey;
    }

    /** hasApiKey. */
    predicate HasApiKey()
      reads this
    {
      Present(apiKey)
    }

    /** getAgentStatus; `remote` is what the GET request to /agents/status yields. */
    method GetAgentStatus(remote: Fetch<Option<string>>) returns (r: Fetch<Option<string>>)
      ensures !HasApiKey() ==> r == Fetched(Some(NoKeyStatus))
      ensures HasApiKey() ==> r == remote
    {
      if apiKey.None? || |apiKey.value| == 0 {
        return Fetched(Some(NoKeyStatus));
      }
      r := remote;
    }
  }
}
