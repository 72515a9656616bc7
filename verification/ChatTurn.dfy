/** One chat process: a turn that locks, reads, runs the model and appends, and a first turn that
    creates its conversation, while other processes create and delete conversations. */
module ChatTurn {
  import opened ChatTable
  import opened ChatStore
  import opened Options
  import Protocol = ChatProtocol

  /** The model: what it answers to a history and a prompt, if it succeeds. */
  type Model = (seq<Message>, string) -> Option<string>

  /** What others may do to the store while a process is inside a turn: anything but append to the
      conversation or bring a deleted one back. */
  twostate predicate OthersOnly(store: Store, conv: ConvId)
    reads store
  {
    && (conv in store.conversations ==>
          conv in old(store.conversations) && Messages(store.rows, conv) == old(Messages(store.rows, conv)))
    && (old(Contiguous(store.rows, conv)) ==> Contiguous(store.rows, conv))
    && (Messages(store.rows, conv) == old(Messages(store.rows, conv)) || Messages(store.rows, conv) == [])
  }

  /** Other processes at work: first turns under fresh identifiers, and deletions. */
  method Others(store: Store, conv: ConvId)
    requires store.Valid()
    modifies store
    ensures store.Valid() && OthersOnly(store, conv) && old(store.asked) <= store.asked
  {
    var steps: int := *;
    while steps > 0
      invariant store.Valid() && OthersOnly(store, conv) && old(store.asked) <= store.asked
    {
      Another(store, conv);
      steps := steps - 1;
    }
  }

  /** One other process's transaction. */
  method Another(store: Store, conv: ConvId)
    requires store.Valid()
    modifies store
    ensures store.Valid() && OthersOnly(store, conv) && old(store.asked) <= store.asked
  {
    var deletes: bool := *;
    var pick: int := *;
    var other: ConvId := if pick < 0 then 0 else pick;
    ghost var before := store.rows;
    if deletes {
      var ok := store.DeleteConversation(other);
      assert other != conv ==> SameReading(before, store.rows, conv);
    } else if other != conv && other !in store.conversations {
      var ok := store.CreateConversationWithTurn(other, "", "");
      assert SameReading(before, store.rows, conv);
    }
  }

  /** The transport step: refused before the model when the finished turn would not fit. */
  function ExecuteTurn(history: seq<Message>, prompt: string, model: Model): (reply: Option<string>)
    ensures |history| <= 254 ==> reply == model(history, prompt)
    ensures |history| > 254 ==> reply == None
  {
    if |history| + 2 > Protocol.MAX_HISTORY then None else model(history, prompt)
  }

  /** A continuing turn. Stored, it is the history read followed by the prompt and what the model
      answered to exactly that history; otherwise it leaves no message. It fails only for a conversation
      deleted meanwhile, a turn that would not fit, a model that does not answer, or a mishap. */
  method RunTurn(store: Store, conv: ConvId, prompt: string, model: Model) returns (ok: bool, history: seq<Message>)
    requires store.Valid() && Contiguous(store.rows, conv)
    modifies store
    ensures store.Valid() && Contiguous(store.rows, conv)
    ensures ok ==> && history == old(Messages(store.rows, conv)) && model(history, prompt).Some?
                   && Messages(store.rows, conv) ==
                      history + Protocol.TurnMessages(prompt, model(history, prompt).value)
                   && |Messages(store.rows, conv)| <= 256
    ensures !ok ==> Messages(store.rows, conv) == old(Messages(store.rows, conv)) || Messages(store.rows, conv) == []
    ensures old(store.asked) <= store.asked
    ensures ok || store.Troubled(old(store.asked), store.asked) || conv !in store.conversations
            || (history == old(Messages(store.rows, conv)) && (|history| > 254 || model(history, prompt) == None))
  {
    history := [];
    var unlocked := store.Fails();
    if unlocked {
      return false, [];
    }
    Others(store, conv);
    history := Messages(store.rows, conv);
    var reply := ExecuteTurn(history, prompt, model);
    Others(store, conv);
    if reply.None? {
      return false, history;
    }
    ok := store.AppendTurn(conv, prompt, reply.value);
  }

  /** A first turn: generated from no history, stored with its conversation or not at all. */
  method RunFirstTurn(store: Store, newcomer: ConvId, prompt: string, model: Model) returns (ok: bool)
    requires store.Valid() && newcomer !in store.conversations
    modifies store
    ensures store.Valid()
    ensures ok ==> model([], prompt).Some? && newcomer in store.conversations && Contiguous(store.rows, newcomer)
                   && Messages(store.rows, newcomer) == Protocol.TurnMessages(prompt, model([], prompt).value)
    ensures !ok ==> newcomer !in store.conversations
    ensures old(store.asked) <= store.asked
    ensures ok || store.Troubled(old(store.asked), store.asked) || model([], prompt) == None
  {
    var reply := ExecuteTurn([], prompt, model);
    Others(store, newcomer);
    if reply.None? {
      return false;
    }
    ok := store.CreateConversationWithTurn(newcomer, prompt, reply.value);
  }
}
