/** How the `messageCreate` handler (index.js:47-111) sorts an incoming
    message before any memory or backend work: ignored, nudged, one of the
    four exact commands, or a conversational prompt with or without the
    web-search flag. */
module Classifier {
  import opened Text

  datatype Outcome =
    | Ignored
    | Nudge
    | Reset
    | Help
    | Ping
    | About
    | Converse(search: bool, prompt: string)

  /** The two spellings of the bot's own mention marker. */
  function Mention(botId: string): string { "<@" + botId + ">" }
  function NickMention(botId: string): string { "<@!" + botId + ">" }

  /** The raw text with the first `<@id>` and then the first `<@!id>` cut out. */
  function WithoutMentions(raw: string, botId: string): (w: string)
    ensures |w| <= |raw|
  {
    var once := RemoveFirst(raw, Mention(botId));
    RemoveFirst(once, NickMention(botId))
  }

  /** The message content the commands are matched against: the text without
      the mention markers, with its leading and trailing whitespace runs
      removed. Empty exactly when nothing but whitespace is left once the
      markers are removed. */
  function CleanContent(raw: string, botId: string): (c: string)
    ensures IsTrimOf(WithoutMentions(raw, botId), c)
    ensures |c| <= |raw|
  {
    var w := WithoutMentions(raw, botId);
    var c := Trim(w);
    assert |c| <= |w|;
    c
  }

  /** The `startsWith` test on the lower-cased content that sets the flag. */
  predicate IsSearchRequest(lower: string) {
    StartsWith(lower, "search ") || StartsWith(lower, "ask ")
  }

  /** What `/^(search|ask)\s+/i` matches at the start of `content`: a keyword
      in any ASCII case followed by at least one whitespace character. */
  predicate HasKeyword(content: string) {
    || (|content| > 6 && ToLower(content[..6]) == "search" && IsSpace(content[6]))
    || (|content| > 3 && ToLower(content[..3]) == "ask" && IsSpace(content[3]))
  }

  /** `prompt` is `content` without a leading keyword and the whole
      whitespace run after it. */
  predicate KeywordRemoved(content: string, prompt: string) {
    var k := |content| - |prompt|;
    && IsSuffix(prompt, content)
    && (prompt == [] || !IsSpace(prompt[0]))
    && (|| (k > 6 && ToLower(content[..6]) == "search" && AllSpace(content[6..k]))
        || (k > 3 && ToLower(content[..3]) == "ask" && AllSpace(content[3..k])))
  }

  /** `content.replace(/^(search|ask)\s+/i, "")`. */
  function StripSearchKeyword(content: string): (p: string)
    ensures HasKeyword(content) ==> KeywordRemoved(content, p)
    ensures !HasKeyword(content) ==> p == content
  {
    if |content| > 6 && ToLower(content[..6]) == "search" && IsSpace(content[6]) then
      StripAfter(content, 6)
    else if |content| > 3 && ToLower(content[..3]) == "ask" && IsSpace(content[3]) then
      StripAfter(content, 3)
    else
      content
  }

  /** `content` from position `k` on, without its leading whitespace run. */
  function StripAfter(content: string, k: nat): (p: string)
    requires k < |content| && IsSpace(content[k])
    ensures IsSuffix(p, content) && |content| - |p| > k
    ensures p == [] || !IsSpace(p[0])
    ensures AllSpace(content[k..|content| - |p|])
    ensures !IsSpace(content[|content| - 1]) ==> p != []
  {
    var p := TrimStart(content[k..]);
    assert p == [] ==> content[|content| - 1] == content[k..][|content| - 1 - k];
    assert content[k..][..|content| - k - |p|] == content[k..|content| - |p|];
    assert content[k..][|content| - k - |p|..] == content[|content| - |p|..];
    p
  }

  /** A trimmed text whose lower-cased form passes the search test starts
      with a keyword and a space, and keeps something after them. */
  lemma SearchRequestHasKeyword(c: string)
    requires c != [] && !IsSpace(c[|c| - 1])
    requires IsSearchRequest(ToLower(c))
    ensures HasKeyword(c)
    ensures StripSearchKeyword(c) != []
  {
    if StartsWith(ToLower(c), "search ") {
      SearchPrefix(c);
      assert StripSearchKeyword(c) == StripAfter(c, 6);
    } else {
      AskPrefix(c);
      assert StripSearchKeyword(c) == StripAfter(c, 3);
    }
  }

  lemma SearchPrefix(c: string)
    requires StartsWith(ToLower(c), "search ")
    ensures |c| > 6 && ToLower(c[..6]) == "search" && IsSpace(c[6])
  {
    var lower := ToLower(c);
    assert lower[..6] == lower[..7][..6] == "search";
    ToLowerPrefix(c, 6);
    assert LowerChar(c[6]) == lower[..7][6] == ' ';
  }

  lemma AskPrefix(c: string)
    requires StartsWith(ToLower(c), "ask ")
    ensures |c| > 3 && ToLower(c[..3]) == "ask" && IsSpace(c[3])
    ensures |c| > 6 ==> ToLower(c[..6]) != "search"
  {
    var lower := ToLower(c);
    assert lower[..3] == lower[..4][..3] == "ask";
    ToLowerPrefix(c, 3);
    assert LowerChar(c[3]) == lower[..4][3] == ' ';
    assert LowerChar(c[0]) == 'a';
    if |c| > 6 {
      var w := ToLower(c[..6]);
      assert w[0] == LowerChar(c[0]);
      assert w != "search";
    }
  }

  /** The classification done by lines 47-111, from the author's bot flag,
      whether the bot is mentioned, the raw text and the bot's id. */
  function Classify(isBot: bool, mentioned: bool, raw: string, botId: string): (o: Outcome)
    ensures o == Ignored <==> isBot || !mentioned
    ensures o == Nudge <==> !isBot && mentioned && CleanContent(raw, botId) == []
    ensures o == Reset <==> !isBot && mentioned && ToLower(CleanContent(raw, botId)) == "reset"
    ensures o == Help <==> !isBot && mentioned && ToLower(CleanContent(raw, botId)) == "help"
    ensures o == Ping <==> !isBot && mentioned && ToLower(CleanContent(raw, botId)) == "ping"
    ensures o == About <==> !isBot && mentioned && ToLower(CleanContent(raw, botId)) == "about"
    ensures o.Converse? ==>
      var c := CleanContent(raw, botId);
      && c != []
      && (o.search <==> IsSearchRequest(ToLower(c)))
      && (o.search ==> o.prompt != [] && KeywordRemoved(c, o.prompt))
      && (!o.search ==> o.prompt == c)
  {
    if isBot || !mentioned then Ignored
    else
      var content := CleanContent(raw, botId);
      if content == [] then Nudge
      else
        var lower := ToLower(content);
        if lower == "reset" then Reset
        else if lower == "help" then Help
        else if lower == "ping" then Ping
        else if lower == "about" then About
        else
          var needsSearch := IsSearchRequest(lower);
          if needsSearch then
            SearchRequestHasKeyword(content);
            Converse(true, StripSearchKeyword(content))
          else Converse(false, content)
  }
}
