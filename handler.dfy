/** The `messageCreate` handler (index.js:45-201) over a memory table passed
    in by reference. The platform and the backend are inputs: the event's
    fields, the text of the message it replies to, and the text the backend
    answered with. */
module Handler {
  import opened Wrappers
  import opened Text
  import opened Classifier
  import opened Memory
  import opened Prompt
  import opened Reply

  /** An inbound message: its author, whether the author is a bot, whether
      it mentions this bot, its raw text, and the text of the message it
      replies to (None when it is not a reply). */
  datatype Message = Message(
    authorId: string,
    authorIsBot: bool,
    mentionsBot: bool,
    content: string,
    quoted: Option<string>)

  /** A call to the generation backend: the contents and the tool list. */
  datatype Request = Request(contents: seq<Turn>, tools: seq<Tool>)

  /** What handling one message does outwardly: the reply sent, if any, and
      the backend request made, if any. */
  datatype Effect = Effect(sent: Option<string>, request: Option<Request>)

  const NudgeReply := "Kuch toh bolo na 😌✨"
  const ResetReply := "🧠 Memory reset ho gayi 😄"
  const HelpReply :=
    "**JUJU Commands**\n" +
    "• `reset` – memory clear\n" +
    "• `help` – commands list\n" +
    "• `ping` – bot status\n" +
    "• `about` – about JUJU\n" +
    "• `ask <question>` – web search\n" +
    "• `search <query>` – web search\n" +
    "👉 Mujhe tag karke baat karo 😌"
  const PingReply := "🏓 Pong! JUJU bilkul ready hai 😌"
  const AboutReply := "🤖 **JUJU** – Hinglish rizz bot ❤️\nSmart, charming & respectful."

  /** The fixed reply of an outcome that ends the turn without the backend. */
  function CannedReply(o: Outcome): Option<string> {
    match o
    case Ignored => None
    case Nudge => Some(NudgeReply)
    case Reset => Some(ResetReply)
    case Help => Some(HelpReply)
    case Ping => Some(PingReply)
    case About => Some(AboutReply)
    case Converse(_, _) => None
  }

  /** Acts on a classified message from `userId`. Ignored messages, the
      nudge and the help, ping and about commands leave the table alone;
      `reset` removes the user's entry; a conversational message sends the
      system turn, the user's history (empty if there was none) and the user
      turn, replies with the backend's text cut to 2000 characters, and
      stores the whole reply in the user's window. No other user's entry
      changes. */
  method Respond(table: MemoryTable, userId: string, o: Outcome, quoted: Option<string>,
                 systemPrompt: string, backendText: Option<string>)
    returns (e: Effect)
    modifies table
    ensures !o.Converse? ==> e == Effect(CannedReply(o), None)
    ensures o == Reset ==> table.entries == old(table.entries) - {userId}
    ensures !o.Converse? && o != Reset ==> table.entries == old(table.entries)
    ensures o.Converse? ==>
      var history := if userId in old(table.entries) then old(table.entries)[userId] else [];
      var userPrompt := UserPrompt(o.prompt, quoted);
      var reply := ExtractReply(backendText);
      && e.request == Some(Request(BuildContents(systemPrompt, history, userPrompt), Tools(o.search)))
      && e.sent == Some(Truncate(reply))
      && table.entries == old(table.entries)[userId := Exchange(history, userPrompt, reply)]
    ensures old(table.Valid()) ==> table.Valid()
  {
    match o {
      case Converse(search, cleanPrompt) =>
        var memory := table.GetOrCreate(userId);
        var userPrompt := UserPrompt(cleanPrompt, quoted);
        var contents := BuildContents(systemPrompt, memory, userPrompt);
        var reply := ExtractReply(backendText);
        table.AppendExchange(userId, userPrompt, reply);
        e := Effect(Some(Truncate(reply)), Some(Request(contents, Tools(search))));
      case Reset =>
        table.Reset(userId);
        e := Effect(Some(ResetReply), None);
      case _ =>
        e := Effect(CannedReply(o), None);
    }
  }

  /** Handles one message: classifies it (index.js:47-111) and acts on the
      outcome (index.js:60-191). */
  method HandleMessage(table: MemoryTable, msg: Message, botId: string,
                       systemPrompt: string, backendText: Option<string>)
    returns (o: Outcome, e: Effect)
    modifies table
    ensures o == Classify(msg.authorIsBot, msg.mentionsBot, msg.content, botId)
    ensures !o.Converse? ==> e == Effect(CannedReply(o), None)
    ensures o == Reset ==> table.entries == old(table.entries) - {msg.authorId}
    ensures !o.Converse? && o != Reset ==> table.entries == old(table.entries)
    ensures o.Converse? ==>
      var history := if msg.authorId in old(table.entries) then old(table.entries)[msg.authorId] else [];
      var userPrompt := UserPrompt(o.prompt, msg.quoted);
      var reply := ExtractReply(backendText);
      && e.request == Some(Request(BuildContents(systemPrompt, history, userPrompt), Tools(o.search)))
      && e.sent == Some(Truncate(reply))
      && table.entries == old(table.entries)[msg.authorId := Exchange(history, userPrompt, reply)]
    ensures old(table.Valid()) ==> table.Valid()
  {
    o := Classify(msg.authorIsBot, msg.mentionsBot, msg.content, botId);
    e := Respond(table, msg.authorId, o, msg.quoted, systemPrompt, backendText);
  }
}
