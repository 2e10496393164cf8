/** Prompt assembly (index.js:135-147, 164-168): the user's turn, wrapped
    with the quoted message when the message is a reply, and the list of
    turns sent to the backend. */
module Prompt {
  import opened Wrappers
  import opened Text
  import opened Memory

  const RepliedHeader := "User replied to:\n"
  const SaysHeader := "\n\nUser says:\n"

  /** The text of the user turn. Without a quoted message it is the prompt
      itself; with one it starts with the header, the quoted text and the
      second header, and ends with the prompt, with nothing in between. */
  function UserPrompt(cleanPrompt: string, quoted: Option<string>): (p: string)
    ensures quoted.None? ==> p == cleanPrompt
    ensures quoted.Some? ==>
      && StartsWith(p, RepliedHeader + quoted.value + SaysHeader)
      && IsSuffix(cleanPrompt, p)
      && |p| == |RepliedHeader| + |quoted.value| + |SaysHeader| + |cleanPrompt|
  {
    match quoted
    case None => cleanPrompt
    case Some(q) =>
      RepliedHeader + q + SaysHeader + cleanPrompt
  }

  /** The contents sent to the backend: the system turn first, then the
      stored history in order, then the user turn. */
  function BuildContents(systemPrompt: string, history: seq<Turn>, userPrompt: string): (c: seq<Turn>)
    ensures |c| == |history| + 2
    ensures c[0] == Turn(System, systemPrompt)
    ensures c[1..|c| - 1] == history
    ensures c[|c| - 1] == Turn(User, userPrompt)
  {
    [Turn(System, systemPrompt)] + history + [Turn(User, userPrompt)]
  }
}
