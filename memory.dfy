/** The per-user conversation memory of index.js: a table from user id to a
    history of turns, with a sliding window of at most `2 * MaxMemory` turns
    (index.js:21-23, 70, 132-133, 182-187). */
module Memory {
  import opened Text

  /** Exchanges remembered per user (index.js:22). */
  const MaxMemory: nat := 10
  /** Turns remembered per user: one user and one assistant turn per exchange. */
  const Cap: nat := 2 * MaxMemory

  datatype Role = System | User | Assistant

  /** One `{ role, parts: [{ text }] }` entry of a history or of the contents. */
  datatype Turn = Turn(role: Role, text: string)

  /** The role the turn at position `i` of a well-formed history has. */
  function RoleAt(i: nat): Role {
    if i % 2 == 0 then User else Assistant
  }

  /** The two turns one exchange pushes: the user's prompt, then the reply. */
  function Pair(prompt: string, reply: string): seq<Turn> {
    [Turn(User, prompt), Turn(Assistant, reply)]
  }

  /** What every history the bot builds itself looks like: complete
      user/assistant pairs, in that order, and no more than `Cap` turns. */
  ghost predicate WellFormed(h: seq<Turn>) {
    && |h| <= Cap
    && |h| % 2 == 0
    && forall i :: 0 <= i < |h| ==> h[i].role == RoleAt(i)
  }

  /** The history after one exchange: the user turn and the assistant turn
      are pushed, then the oldest turns are spliced off the front until at
      most `Cap` remain (index.js:182-187). The result ends with the new
      pair, is preceded by the most recent old turns in their order, and
      has `min(|h| + 2, Cap)` turns. */
  function Exchange(h: seq<Turn>, prompt: string, reply: string): (r: seq<Turn>)
    ensures |r| == Min(|h| + 2, Cap)
    ensures r[|r| - 2] == Turn(User, prompt) && r[|r| - 1] == Turn(Assistant, reply)
    ensures IsSuffix(r[..|r| - 2], h)
    ensures |h| % 2 == 0 ==> |r| % 2 == 0
  {
    var pushed := h + Pair(prompt, reply);
    var r := if |pushed| > Cap then pushed[|pushed| - Cap..] else pushed;
    assert r[..|r| - 2] == h[|h| - (|r| - 2)..];
    r
  }

  /** The exchange keeps a well-formed history well-formed: eviction drops
      whole pairs from the front, so the survivors keep their roles. */
  lemma ExchangeKeepsWellFormed(h: seq<Turn>, prompt: string, reply: string)
    requires WellFormed(h)
    ensures WellFormed(Exchange(h, prompt, reply))
  {
    var r := Exchange(h, prompt, reply);
    var d := |h| + 2 - |r|;
    assert d == 0 || d == 2;
    forall i | 0 <= i < |r| ensures r[i].role == RoleAt(i) {
      if i < |r| - 2 {
        assert r[..|r| - 2][i] == h[i + d];
        assert RoleAt(i + d) == RoleAt(i);
      }
    }
  }

  /** The eleventh exchange on a full history drops exactly the oldest pair. */
  lemma FullHistoryDropsOldestPair(h: seq<Turn>, prompt: string, reply: string)
    requires |h| == Cap
    ensures Exchange(h, prompt, reply) == h[2..] + Pair(prompt, reply)
  {
    var r := Exchange(h, prompt, reply);
    assert r[..|r| - 2] == h[2..];
    assert r == r[..|r| - 2] + Pair(prompt, reply);
  }

  // -----------------------------------------------------------------------
  // Successive exchanges

  /** The turns a sequence of (prompt, reply) exchanges pushes, in order. */
  function Pushed(xs: seq<(string, string)>): (ts: seq<Turn>)
    ensures |ts| == 2 * |xs|
  {
    if xs == [] then []
    else Pair(xs[0].0, xs[0].1) + Pushed(xs[1..])
  }

  /** The history after the exchanges `xs`, one after the other, from `h`. */
  function Replay(h: seq<Turn>, xs: seq<(string, string)>): seq<Turn>
    decreases |xs|
  {
    if xs == [] then h else Replay(Exchange(h, xs[0].0, xs[0].1), xs[1..])
  }

  /** After N exchanges the history holds `min(|h| + 2N, Cap)` turns; from an
      empty history that is `min(2N, Cap)`. */
  lemma {:induction false} ReplayLength(h: seq<Turn>, xs: seq<(string, string)>)
    requires |h| <= Cap
    ensures |Replay(h, xs)| == Min(|h| + 2 * |xs|, Cap)
    decreases |xs|
  {
    if xs != [] {
      ReplayLength(Exchange(h, xs[0].0, xs[0].1), xs[1..]);
    }
  }

  /** One exchange leaves a tail of the history with the pair pushed. */
  lemma ExchangeIsTail(h: seq<Turn>, prompt: string, reply: string)
    ensures IsSuffix(Exchange(h, prompt, reply), h + Pair(prompt, reply))
  {
    var pair := Pair(prompt, reply);
    var r := Exchange(h, prompt, reply);
    var k := |h| + 2 - |r|;
    assert r == h[k..] + pair by {
      assert r == r[..|r| - 2] + pair;
    }
    assert (h + pair)[k..] == h[k..] + pair;
  }

  lemma PushedFirst(h: seq<Turn>, xs: seq<(string, string)>)
    requires xs != []
    ensures h + Pushed(xs) == (h + Pair(xs[0].0, xs[0].1)) + Pushed(xs[1..])
  {
  }

  /** Eviction is first-in first-out: whatever is left after any number of
      exchanges is the most recent part of everything ever pushed. */
  lemma {:induction false} ReplayKeepsMostRecent(h: seq<Turn>, xs: seq<(string, string)>)
    ensures IsSuffix(Replay(h, xs), h + Pushed(xs))
    decreases |xs|
  {
    if xs == [] {
      assert h + Pushed(xs) == h;
    } else {
      var h' := Exchange(h, xs[0].0, xs[0].1);
      ReplayKeepsMostRecent(h', xs[1..]);
      ExchangeIsTail(h, xs[0].0, xs[0].1);
      PushedFirst(h, xs);
      SuffixAppendRight(h', h + Pair(xs[0].0, xs[0].1), Pushed(xs[1..]));
      SuffixTransitive(Replay(h', xs[1..]), h' + Pushed(xs[1..]), h + Pushed(xs));
    }
  }

  /** A history built by exchanges alone is always well-formed. */
  lemma {:induction false} ReplayKeepsWellFormed(h: seq<Turn>, xs: seq<(string, string)>)
    requires WellFormed(h)
    ensures WellFormed(Replay(h, xs))
    decreases |xs|
  {
    if xs != [] {
      ExchangeKeepsWellFormed(h, xs[0].0, xs[0].1);
      ReplayKeepsWellFormed(Exchange(h, xs[0].0, xs[0].1), xs[1..]);
    }
  }

  // -----------------------------------------------------------------------
  // The table

  /** `userMemory`: the map from user id to that user's history. */
  class MemoryTable {
    var entries: map<string, seq<Turn>>

    /** Every history in the table is well-formed. */
    ghost predicate Valid()
      reads this
    {
      forall u :: u in entries ==> WellFormed(entries[u])
    }

    /** The empty table the process starts with when there is no saved file. */
    constructor ()
      ensures entries == map[] && Valid()
    {
      entries := map[];
    }

    /** The table rebuilt from the saved document (index.js:26-29); the
        document's parsing is not part of the model. */
    constructor Load(stored: map<string, seq<Turn>>)
      ensures entries == stored
    {
      entries := stored;
    }

    /** index.js:132-133: install an empty history for a user who has none,
        then return the user's history. */
    method GetOrCreate(userId: string) returns (h: seq<Turn>)
      modifies this
      ensures userId in entries && h == entries[userId]
      ensures userId in old(entries) ==> entries == old(entries)
      ensures userId !in old(entries) ==> entries == old(entries)[userId := []] && h == []
      ensures old(Valid()) ==> Valid()
    {
      if userId !in entries {
        entries := entries[userId := []];
      }
      h := entries[userId];
    }

    /** index.js:70: `reset` removes the user's entry entirely. */
    method Reset(userId: string)
      modifies this
      ensures userId !in entries
      ensures entries == old(entries) - {userId}
      ensures old(Valid()) ==> Valid()
    {
      entries := entries - {userId};
    }

    /** index.js:182-187: push the exchange onto the user's history and
        evict from the front; no other user's entry changes. */
    method AppendExchange(userId: string, prompt: string, reply: string)
      requires userId in entries
      modifies this
      ensures entries == old(entries)[userId := Exchange(old(entries)[userId], prompt, reply)]
      ensures |entries[userId]| <= Cap
      ensures old(Valid()) ==> Valid()
    {
      var memory := entries[userId];
      if Valid() {
        ExchangeKeepsWellFormed(memory, prompt, reply);
      }
      memory := memory + Pair(prompt, reply);
      if |memory| > Cap {
        memory := memory[|memory| - Cap..];
      }
      entries := entries[userId := memory];
    }
  }
}
