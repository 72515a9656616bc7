/** Chat processes interleaved over one store: text and image turns under the continuation lock,
    first turns and deletions without it, and processes that die between any two steps. */
module ChatProtocol {
  import opened ChatTable

  type Pid = nat

  const MAX_HISTORY := 256

  /** Where a process stands in a turn. */
  datatype Phase =
    | Idle
    | Holding(conv: ConvId, prompt: string)
    | HasRead(conv: ConvId, prompt: string, history: seq<Message>)
    | Ran(conv: ConvId, prompt: string, history: seq<Message>, reply: string)
    | Finished
    | RanFirst(prompt: string, reply: string)

  /** A turn stored, with the history it was generated from. */
  datatype Turn = Turn(conv: ConvId, history: seq<Message>, prompt: string, reply: string)

  datatype State = State(
    convs: map<ConvId, seq<Message>>,
    holder: set<Pid>,
    phases: map<Pid, Phase>,
    used: set<ConvId>,
    turns: seq<Turn>)

  datatype Label =
    | Acquire(pid: Pid, conv: ConvId, prompt: string)
    | Read(pid: Pid)
    | Run(pid: Pid, reply: string)
    | Append(pid: Pid)
    | Fail(pid: Pid)
    | Release(pid: Pid)
    | RunFirst(pid: Pid, prompt: string, reply: string)
    | Create(pid: Pid, conv: ConvId)
    | Delete(conv: ConvId)
    | Rename(conv: ConvId)
    | Crash(pid: Pid)

  function PhaseOf(phases: map<Pid, Phase>, pid: Pid): Phase {
    if pid in phases then phases[pid] else Idle
  }

  predicate InTurn(p: Phase) { p.Holding? || p.HasRead? || p.Ran? || p.Finished? }

  function Stored(s: State, conv: ConvId): seq<Message> {
    if conv in s.convs then s.convs[conv] else []
  }

  /** The limit checked before a model is called. */
  predicate Fits(history: seq<Message>) { |history| + 2 <= MAX_HISTORY }

  function TurnMessages(prompt: string, reply: string): seq<Message> {
    [Message(User, prompt), Message(Assistant, reply)]
  }

  predicate Step(s: State, l: Label, s': State) {
    match l
    case Acquire(pid, conv, prompt) =>
      && s.holder == {} && PhaseOf(s.phases, pid).Idle? && conv in s.used
      && s' == s.(holder := {pid}, phases := s.phases[pid := Holding(conv, prompt)])
    case Read(pid) =>
      var p := PhaseOf(s.phases, pid);
      p.Holding? && s' == s.(phases := s.phases[pid := HasRead(p.conv, p.prompt, Stored(s, p.conv))])
    case Run(pid, reply) =>
      var p := PhaseOf(s.phases, pid);
      p.HasRead? && Fits(p.history) && s' == s.(phases := s.phases[pid := Ran(p.conv, p.prompt, p.history, reply)])
    case Append(pid) =>
      var p := PhaseOf(s.phases, pid);
      && p.Ran? && p.conv in s.convs
      && s' == s.(convs := s.convs[p.conv := s.convs[p.conv] + TurnMessages(p.prompt, p.reply)],
                  phases := s.phases[pid := Finished],
                  turns := s.turns + [Turn(p.conv, p.history, p.prompt, p.reply)])
    case Fail(pid) =>
      // Reading, running or storing failed; or the conversation is gone.
      InTurn(PhaseOf(s.phases, pid)) && s' == s.(phases := s.phases[pid := Finished])
    case Release(pid) =>
      PhaseOf(s.phases, pid).Finished? && s' == s.(holder := {}, phases := s.phases[pid := Idle])
    case RunFirst(pid, prompt, reply) =>
      PhaseOf(s.phases, pid).Idle? && s' == s.(phases := s.phases[pid := RanFirst(prompt, reply)])
    case Create(pid, conv) =>
      var p := PhaseOf(s.phases, pid);
      && p.RanFirst? && conv !in s.used
      && s' == s.(convs := s.convs[conv := TurnMessages(p.prompt, p.reply)],
                  used := s.used + {conv},
                  phases := s.phases[pid := Idle],
                  turns := s.turns + [Turn(conv, [], p.prompt, p.reply)])
    case Delete(conv) =>
      conv in s.convs && s' == s.(convs := map c | c in s.convs && c != conv :: s.convs[c])
    case Rename(conv) => s' == s
    case Crash(pid) =>
      // The operating system drops the lock of a process that dies.
      s' == s.(holder := s.holder - {pid}, phases := s.phases[pid := Idle])
  }

  predicate Initial(s: State) {
    s.convs == map[] && s.holder == {} && s.phases == map[] && s.used == {} && s.turns == []
  }

  predicate IsRun(states: seq<State>, labels: seq<Label>) {
    && |states| == |labels| + 1 && Initial(states[0])
    && forall i :: 0 <= i < |labels| ==> Step(states[i], labels[i], states[i + 1])
  }

  // ---- what every reachable state keeps ----

  /** The messages a conversation was given by its stored turns, in order. */
  function Told(turns: seq<Turn>, conv: ConvId): seq<Message> {
    if turns == [] then []
    else
      var last := turns[|turns| - 1];
      Told(turns[..|turns| - 1], conv) + if last.conv == conv then TurnMessages(last.prompt, last.reply) else []
  }

  /** User and assistant in turn, starting with the user and ending with the assistant. */
  predicate Alternates(ms: seq<Message>) {
    && |ms| % 2 == 0
    && forall i :: 0 <= i < |ms| ==> ms[i].role == if i % 2 == 0 then User else Assistant
  }

  /** At most one process holds the lock: exactly the one inside a turn. */
  predicate LockOk(s: State) {
    && (forall p, q :: p in s.holder && q in s.holder ==> p == q)
    && (forall p :: p in s.phases ==> (InTurn(s.phases[p]) <==> p in s.holder))
    && (forall p :: p in s.holder ==> p in s.phases)
  }

  predicate StoreOk(s: State) {
    && (forall c :: c in s.convs ==> c in s.used)
    && (forall c :: c in s.convs ==>
          s.convs[c] == Told(s.turns, c) && Alternates(s.convs[c]) && |s.convs[c]| <= MAX_HISTORY)
    && (forall i :: 0 <= i < |s.turns| ==> s.turns[i].conv in s.used)
  }

  /** A history in hand is still what is stored, unless the conversation was deleted. */
  predicate HistoryOk(s: State) {
    forall p :: p in s.phases ==>
      && (s.phases[p].Holding? ==> s.phases[p].conv in s.used)
      && (s.phases[p].HasRead? || s.phases[p].Ran? ==>
            && s.phases[p].conv in s.used
            && (s.phases[p].conv in s.convs ==> s.convs[s.phases[p].conv] == s.phases[p].history))
      && (s.phases[p].Ran? ==> Fits(s.phases[p].history))
  }

  /** Every stored turn was generated from exactly the messages stored before it. */
  predicate TurnsOk(turns: seq<Turn>) {
    forall i :: 0 <= i < |turns| ==> turns[i].history == Told(turns[..i], turns[i].conv)
  }

  predicate Inv(s: State) {
    LockOk(s) && StoreOk(s) && HistoryOk(s) && TurnsOk(s.turns)
  }

  lemma ToldSnoc(turns: seq<Turn>, t: Turn, conv: ConvId)
    ensures Told(turns + [t], conv) ==
            Told(turns, conv) + (if t.conv == conv then TurnMessages(t.prompt, t.reply) else [])
  {
    assert (turns + [t])[..|turns|] == turns;
  }

  lemma TurnsSnoc(turns: seq<Turn>, t: Turn)
    requires TurnsOk(turns) && t.history == Told(turns, t.conv)
    ensures TurnsOk(turns + [t])
  {
    var more := turns + [t];
    forall i | 0 <= i < |more| ensures more[i].history == Told(more[..i], more[i].conv) {
      if i < |turns| {
        assert more[..i] == turns[..i];
      } else {
        assert more[..i] == turns;
      }
    }
  }

  lemma {:induction false} ToldNothing(turns: seq<Turn>, conv: ConvId)
    requires forall i :: 0 <= i < |turns| ==> turns[i].conv != conv
    ensures Told(turns, conv) == []
    decreases |turns|
  {
    if turns != [] {
      ToldNothing(turns[..|turns| - 1], conv);
    }
  }

  lemma AlternatesMore(ms: seq<Message>, prompt: string, reply: string)
    requires Alternates(ms)
    ensures Alternates(ms + TurnMessages(prompt, reply))
  {
  }

  lemma AppendKeeps(s: State, pid: Pid, s': State)
    requires Inv(s) && Step(s, Append(pid), s')
    ensures StoreOk(s') && TurnsOk(s'.turns)
  {
    var p := PhaseOf(s.phases, pid);
    var t := Turn(p.conv, p.history, p.prompt, p.reply);
    TurnsSnoc(s.turns, t);
    AlternatesMore(s.convs[p.conv], p.prompt, p.reply);
    forall c | c in s'.convs ensures s'.convs[c] == Told(s'.turns, c) {
      ToldSnoc(s.turns, t, c);
    }
  }

  lemma CreateKeeps(s: State, pid: Pid, conv: ConvId, s': State)
    requires Inv(s) && Step(s, Create(pid, conv), s')
    ensures StoreOk(s') && TurnsOk(s'.turns)
  {
    var p := PhaseOf(s.phases, pid);
    var t := Turn(conv, [], p.prompt, p.reply);
    ToldNothing(s.turns, conv);
    TurnsSnoc(s.turns, t);
    AlternatesMore([], p.prompt, p.reply);
    forall c | c in s'.convs ensures s'.convs[c] == Told(s'.turns, c) {
      ToldSnoc(s.turns, t, c);
    }
  }

  lemma LockKeeps(s: State, l: Label, s': State)
    requires LockOk(s) && Step(s, l, s')
    ensures LockOk(s')
  {
  }

  /** No step but Append, Create and Delete touches a conversation. */
  lemma StoreKeeps(s: State, l: Label, s': State)
    requires Inv(s) && Step(s, l, s')
    ensures StoreOk(s') && TurnsOk(s'.turns)
  {
    match l
    case Append(pid) => AppendKeeps(s, pid, s');
    case Create(pid, conv) => CreateKeeps(s, pid, conv, s');
    case _ =>
      assert s'.turns == s.turns && s'.used == s.used;
      assert forall c :: c in s'.convs ==> c in s.convs && s'.convs[c] == s.convs[c];
  }

  lemma AppendHistory(s: State, pid: Pid, s': State)
    requires LockOk(s) && HistoryOk(s) && Step(s, Append(pid), s')
    ensures HistoryOk(s')
  {
    assert pid in s.holder;
    forall p | p in s'.phases && p != pid ensures !s'.phases[p].HasRead? && !s'.phases[p].Ran? {
      assert InTurn(s.phases[p]) ==> p in s.holder;
    }
  }

  lemma OtherHistory(s: State, l: Label, s': State)
    requires LockOk(s) && HistoryOk(s) && Step(s, l, s') && !l.Append?
    ensures HistoryOk(s')
  {
    forall p | p in s'.phases && s'.phases[p] == PhaseOf(s.phases, p) && (s'.phases[p].HasRead? || s'.phases[p].Ran?)
      ensures var h := s'.phases[p]; h.conv in s'.used && (h.conv in s'.convs ==> s'.convs[h.conv] == h.history)
    {
      assert p in s.phases;
    }
  }

  lemma HistoryKeeps(s: State, l: Label, s': State)
    requires LockOk(s) && HistoryOk(s) && Step(s, l, s')
    ensures HistoryOk(s')
  {
    if l.Append? {
      AppendHistory(s, l.pid, s');
    } else {
      OtherHistory(s, l, s');
    }
  }

  /** Every step keeps the invariant. */
  lemma StepKeepsInv(s: State, l: Label, s': State)
    requires Inv(s) && Step(s, l, s')
    ensures Inv(s')
  {
    LockKeeps(s, l, s');
    StoreKeeps(s, l, s');
    HistoryKeeps(s, l, s');
  }

  lemma {:induction false} RunKeepsInv(states: seq<State>, labels: seq<Label>, i: nat)
    requires IsRun(states, labels) && i < |states|
    ensures Inv(states[i])
    decreases i
  {
    if i > 0 {
      RunKeepsInv(states, labels, i - 1);
      StepKeepsInv(states[i - 1], labels[i - 1], states[i]);
    }
  }

  /** In every run, each turn stored was generated from exactly the messages stored before it, and
      each conversation left is its stored turns in order: user and assistant alternating, at most
      256 messages, nothing from turns that failed. */
  lemma EveryRunIsConsistent(states: seq<State>, labels: seq<Label>)
    requires IsRun(states, labels)
    ensures var s := states[|states| - 1];
            && (forall i :: 0 <= i < |s.turns| ==> s.turns[i].history == Told(s.turns[..i], s.turns[i].conv))
            && (forall c :: c in s.convs ==>
                  s.convs[c] == Told(s.turns, c) && Alternates(s.convs[c]) && |s.convs[c]| <= 256)
  {
    RunKeepsInv(states, labels, |states| - 1);
  }

  /** A model is called exactly for a history of up to 254 messages: with 254 the turn fills the
      conversation. */
  lemma RoomExactly(s: State, pid: Pid, reply: string)
    requires PhaseOf(s.phases, pid).HasRead?
    ensures (exists s' :: Step(s, Run(pid, reply), s')) <==> |PhaseOf(s.phases, pid).history| <= 254
  {
    var p := PhaseOf(s.phases, pid);
    var ran := s.(phases := s.phases[pid := Ran(p.conv, p.prompt, p.history, reply)]);
    assert |p.history| <= 254 ==> Step(s, Run(pid, reply), ran);
  }

  /** Two processes are never inside a turn together, so no history read goes stale. */
  lemma TurnsExclude(states: seq<State>, labels: seq<Label>, i: nat, p: Pid, q: Pid)
    requires IsRun(states, labels) && i < |states|
    requires InTurn(PhaseOf(states[i].phases, p)) && InTurn(PhaseOf(states[i].phases, q))
    ensures p == q
  {
    RunKeepsInv(states, labels, i);
  }

  /** A conversation changes only by whole turns or by deletion. */
  lemma OnlyWholeTurns(s: State, l: Label, s': State, conv: ConvId)
    requires Inv(s) && Step(s, l, s') && conv in s.convs
    ensures conv !in s'.convs || s'.convs[conv] == s.convs[conv]
            || (l.Append? && exists prompt, reply :: s'.convs[conv] == s.convs[conv] + TurnMessages(prompt, reply))
  {
    if l.Append? {
      var p := PhaseOf(s.phases, l.pid);
      assert conv == p.conv ==> s'.convs[conv] == s.convs[conv] + TurnMessages(p.prompt, p.reply);
    }
  }
}
