/** What the handler does with the backend's answer (index.js:174-179, 191):
    which tools it asks for, the reply text with its fallback, and the cut
    to the platform's message length. */
module Reply {
  import opened Wrappers
  import opened Text

  /** Reply used when the backend gives no text (index.js:179). */
  const Fallback := "Thoda sa issue aa gaya 😅"
  /** The longest message the handler sends (index.js:191). */
  const MaxMessage: nat := 2000

  datatype Tool = GoogleSearch

  /** `needsSearch ? [{ googleSearch: {} }] : []`. */
  function Tools(search: bool): (t: seq<Tool>)
    ensures t != [] <==> search
    ensures |t| <= 1
  {
    if search then [GoogleSearch] else []
  }

  /** `text || fallback`: the backend's text when there is a non-empty one,
      the fallback otherwise, so the reply is never empty. */
  function ExtractReply(backendText: Option<string>): (r: string)
    ensures r != []
    ensures backendText.Some? && backendText.value != [] ==> r == backendText.value
    ensures backendText.None? || backendText.value == [] ==> r == Fallback
  {
    if backendText.Some? && backendText.value != [] then backendText.value else Fallback
  }

  /** `reply.slice(0, 2000)`: the longest prefix of at most 2000 characters. */
  function Truncate(reply: string): (s: string)
    ensures StartsWith(reply, s)
    ensures |s| == Min(|reply|, MaxMessage)
    ensures |reply| <= MaxMessage ==> s == reply
  {
    if |reply| <= MaxMessage then reply else reply[..MaxMessage]
  }
}
