/** Chat processes over the store's table: every step, a transaction or not, is a step of the protocol
    on the messages read back, and sequence numbers stay without gaps in every interleaving. */
module ChatRefinement {
  import opened ChatProtocol
  import opened ChatStore
  import opened ChatTable

  /** The processes' side of a state; what is stored is on disk. */
  datatype Control = Control(holder: set<Pid>, phases: map<Pid, Phase>, used: set<ConvId>, turns: seq<Turn>)

  /** What the protocol sees of the disk: each conversation read back. */
  function View(d: Disk): map<ConvId, seq<Message>> {
    map c | c in d.conversations :: Messages(d.rows, c)
  }

  function Seen(c: Control, d: Disk): State { State(View(d), c.holder, c.phases, c.used, c.turns) }

  /** The steps with what they do to the disk. */
  ghost predicate DiskStep(c: Control, d: Disk, l: Label, c': Control, d': Disk) {
    match l
    case Acquire(pid, conv, prompt) =>
      && c.holder == {} && PhaseOf(c.phases, pid).Idle? && conv in c.used && d' == d
      && c' == c.(holder := {pid}, phases := c.phases[pid := Holding(conv, prompt)])
    case Read(pid) =>
      var p := PhaseOf(c.phases, pid);
      p.Holding? && d' == d && c' == c.(phases := c.phases[pid := HasRead(p.conv, p.prompt, Messages(d.rows, p.conv))])
    case Run(pid, reply) =>
      var p := PhaseOf(c.phases, pid);
      && p.HasRead? && Fits(p.history) && d' == d
      && c' == c.(phases := c.phases[pid := Ran(p.conv, p.prompt, p.history, reply)])
    case Append(pid) =>
      var p := PhaseOf(c.phases, pid);
      && p.Ran? && Appended(d, d', p.conv, p.prompt, p.reply)
      && c' == c.(phases := c.phases[pid := Finished], turns := c.turns + [Turn(p.conv, p.history, p.prompt, p.reply)])
    case Fail(pid) => InTurn(PhaseOf(c.phases, pid)) && d' == d && c' == c.(phases := c.phases[pid := Finished])
    case Release(pid) =>
      PhaseOf(c.phases, pid).Finished? && d' == d && c' == c.(holder := {}, phases := c.phases[pid := Idle])
    case RunFirst(pid, prompt, reply) =>
      PhaseOf(c.phases, pid).Idle? && d' == d && c' == c.(phases := c.phases[pid := RanFirst(prompt, reply)])
    case Create(pid, conv) =>
      var p := PhaseOf(c.phases, pid);
      && p.RanFirst? && conv !in c.used && Created(d, d', conv, p.prompt, p.reply)
      && c' == c.(used := c.used + {conv}, phases := c.phases[pid := Idle],
                  turns := c.turns + [Turn(conv, [], p.prompt, p.reply)])
    case Delete(conv) => Deleted(d, d', conv) && c' == c
    case Rename(conv) => d' == d && c' == c
    case Crash(pid) => d' == d && c' == c.(holder := c.holder - {pid}, phases := c.phases[pid := Idle])
  }

  /** The disk is in order, and every conversation is numbered from zero without gaps. */
  predicate AllContiguous(d: Disk) { DiskOk(d) && forall conv :: conv in d.conversations ==> Contiguous(d.rows, conv) }

  lemma GoneReadsEmpty(d: Disk, conv: ConvId)
    requires DiskOk(d) && conv !in d.conversations
    ensures Messages(d.rows, conv) == [] && RowIds(d.rows, conv) == {} && Contiguous(d.rows, conv)
  {
    assert forall id :: id !in RowIds(d.rows, conv);
    assert RowIds(d.rows, conv) == {};
    assert Reading(d.rows, conv) == [];
  }

  /** The conversation reads as these messages, and its numbers are in order. */
  predicate ReadsAs(rows: Table, conv: ConvId, ms: seq<Message>) {
    Messages(rows, conv) == ms && Contiguous(rows, conv)
  }

  lemma TurnRead(d: Disk, conv: ConvId, n: int, user: string, assistant: string, other: ConvId,
                 ms: seq<Message>)
    requires AllContiguous(d) && conv in d.conversations && n == |Messages(d.rows, conv)| && other in d.conversations
    requires ms == if other == conv then Messages(d.rows, conv) + TurnMessages(user, assistant)
                   else Messages(d.rows, other)
    ensures ReadsAs(WithTurn(d.rows, conv, d.nextId, n, user, assistant), other, ms)
  {
    if other == conv {
      SeqnoBelow(d.rows, conv);
      TurnReads(d.rows, conv, d.nextId, n, user, assistant);
      TurnContiguous(d.rows, conv, d.nextId, n, user, assistant);
    } else {
      TurnElsewhere(d.rows, conv, d.nextId, n, user, assistant, other);
    }
  }

  lemma ViewIs(d: Disk, seen: map<ConvId, seq<Message>>)
    requires DiskOk(d) && d.conversations == seen.Keys
    requires forall conv :: conv in seen ==> ReadsAs(d.rows, conv, seen[conv])
    ensures AllContiguous(d) && View(d) == seen
  {
    forall conv | conv in d.conversations ensures Contiguous(d.rows, conv) && Messages(d.rows, conv) == seen[conv] {
      assert ReadsAs(d.rows, conv, seen[conv]);
    }
  }

  lemma TurnDiskOk(d: Disk, conv: ConvId, n: int, user: string, assistant: string)
    requires DiskOk(d) && conv in d.conversations
    ensures DiskOk(AppendedAt(d, conv, n, user, assistant))
  {
  }

  /** A turn's rows in place: its conversation reads on, every other reads as before. */
  lemma TurnSeen(d: Disk, conv: ConvId, n: int, user: string, assistant: string)
    requires AllContiguous(d) && conv in d.conversations && n == |Messages(d.rows, conv)|
    ensures var d' := AppendedAt(d, conv, n, user, assistant);
            AllContiguous(d') && View(d') == View(d)[conv := Messages(d.rows, conv) + TurnMessages(user, assistant)]
  {
    var d' := AppendedAt(d, conv, n, user, assistant);
    var seen := View(d)[conv := Messages(d.rows, conv) + TurnMessages(user, assistant)];
    TurnDiskOk(d, conv, n, user, assistant);
    forall other | other in seen ensures ReadsAs(d'.rows, other, seen[other]) {
      TurnRead(d, conv, n, user, assistant, other, seen[other]);
    }
    ViewIs(d', seen);
  }

  lemma AppendSeen(d: Disk, d': Disk, conv: ConvId, user: string, assistant: string)
    requires AllContiguous(d) && Appended(d, d', conv, user, assistant)
    ensures AllContiguous(d') && View(d') == View(d)[conv := Messages(d.rows, conv) + TurnMessages(user, assistant)]
  {
    var n :| IsNext(d.rows, conv, n) && d' == AppendedAt(d, conv, n, user, assistant);
    NextIsLength(d.rows, conv, n);
    TurnSeen(d, conv, n, user, assistant);
  }

  lemma CreateSeen(d: Disk, d': Disk, conv: ConvId, user: string, assistant: string)
    requires AllContiguous(d) && Created(d, d', conv, user, assistant)
    ensures AllContiguous(d') && View(d') == View(d)[conv := TurnMessages(user, assistant)]
  {
    var held := d.(conversations := d.conversations + {conv});
    GoneReadsEmpty(d, conv);
    TurnSeen(held, conv, 0, user, assistant);
    assert [] + TurnMessages(user, assistant) == TurnMessages(user, assistant);
    assert View(d') == View(d)[conv := TurnMessages(user, assistant)];
  }

  lemma OthersRead(rows: Table, left: Table, conv: ConvId, other: ConvId, ms: seq<Message>)
    requires ReadsAs(rows, other, ms) && other != conv
    requires left == map id | id in rows && rows[id].conv != conv :: rows[id]
    ensures ReadsAs(left, other, ms)
  {
    assert RowIds(left, other) == RowIds(rows, other);
    UntouchedReads(rows, left, other);
  }

  lemma DeleteSeen(d: Disk, d': Disk, conv: ConvId)
    requires AllContiguous(d) && Deleted(d, d', conv)
    ensures AllContiguous(d') && View(d') == map c | c in View(d) && c != conv :: View(d)[c]
  {
    var seen := map c | c in View(d) && c != conv :: View(d)[c];
    forall other | other in seen ensures ReadsAs(d'.rows, other, seen[other]) {
      OthersRead(d.rows, d'.rows, conv, other, seen[other]);
    }
    DeleteDiskOk(d, d', conv);
    ViewIs(d', seen);
  }

  lemma DeleteDiskOk(d: Disk, d': Disk, conv: ConvId)
    requires DiskOk(d) && Deleted(d, d', conv)
    ensures DiskOk(d')
  {
  }

  /** Every step over the table is that step of the protocol on what is read back. */
  lemma StepRefines(c: Control, d: Disk, l: Label, c': Control, d': Disk)
    requires AllContiguous(d) && DiskStep(c, d, l, c', d')
    ensures AllContiguous(d') && Step(Seen(c, d), l, Seen(c', d'))
  {
    hide DiskStep, Step, AllContiguous;
    match l
    case Read(pid) => ReadRefines(c, d, pid, c', d');
    case Append(pid) => AppendRefines(c, d, pid, c', d');
    case Create(pid, conv) => CreateRefines(c, d, pid, conv, c', d');
    case Delete(conv) => DeleteRefines(c, d, conv, c', d');
    case _ => QuietRefines(c, d, l, c', d');
  }

  lemma ReadRefines(c: Control, d: Disk, pid: Pid, c': Control, d': Disk)
    requires AllContiguous(d) && DiskStep(c, d, Read(pid), c', d')
    ensures AllContiguous(d') && Step(Seen(c, d), Read(pid), Seen(c', d'))
  {
    var conv := PhaseOf(c.phases, pid).conv;
    if conv !in d.conversations {
      GoneReadsEmpty(d, conv);
    }
  }

  lemma AppendRefines(c: Control, d: Disk, pid: Pid, c': Control, d': Disk)
    requires AllContiguous(d) && DiskStep(c, d, Append(pid), c', d')
    ensures AllContiguous(d') && Step(Seen(c, d), Append(pid), Seen(c', d'))
  {
    hide Messages, Contiguous;
    var p := PhaseOf(c.phases, pid);
    AppendSeen(d, d', p.conv, p.prompt, p.reply);
  }

  lemma CreateRefines(c: Control, d: Disk, pid: Pid, conv: ConvId, c': Control, d': Disk)
    requires AllContiguous(d) && DiskStep(c, d, Create(pid, conv), c', d')
    ensures AllContiguous(d') && Step(Seen(c, d), Create(pid, conv), Seen(c', d'))
  {
    hide Messages, Contiguous;
    var p := PhaseOf(c.phases, pid);
    CreateSeen(d, d', conv, p.prompt, p.reply);
  }

  lemma DeleteRefines(c: Control, d: Disk, conv: ConvId, c': Control, d': Disk)
    requires AllContiguous(d) && DiskStep(c, d, Delete(conv), c', d')
    ensures AllContiguous(d') && Step(Seen(c, d), Delete(conv), Seen(c', d'))
  {
    hide Messages, Contiguous;
    DeleteSeen(d, d', conv);
  }

  /** The steps that leave the disk alone, but for reading. */
  lemma QuietRefines(c: Control, d: Disk, l: Label, c': Control, d': Disk)
    requires AllContiguous(d) && DiskStep(c, d, l, c', d')
    requires !l.Read? && !l.Append? && !l.Create? && !l.Delete?
    ensures AllContiguous(d') && Step(Seen(c, d), l, Seen(c', d'))
  {
    hide Messages, Contiguous;
  }

  // ---- whole runs ----

  const NOBODY := Control({}, map[], {}, [])
  const NOTHING := Disk({}, map[], 1)

  ghost predicate IsDiskRun(controls: seq<Control>, disks: seq<Disk>, labels: seq<Label>) {
    && |controls| == |disks| == |labels| + 1 && controls[0] == NOBODY && disks[0] == NOTHING
    && forall i :: 0 <= i < |labels| ==> DiskStep(controls[i], disks[i], labels[i], controls[i + 1], disks[i + 1])
  }

  function SeenRun(controls: seq<Control>, disks: seq<Disk>): (states: seq<State>)
    requires |controls| == |disks|
    ensures |states| == |controls| && forall i :: 0 <= i < |states| ==> states[i] == Seen(controls[i], disks[i])
  {
    seq(|controls|, i requires 0 <= i < |controls| => Seen(controls[i], disks[i]))
  }

  lemma {:induction false} RunNumbered(controls: seq<Control>, disks: seq<Disk>, labels: seq<Label>, i: nat)
    requires IsDiskRun(controls, disks, labels) && i < |disks|
    ensures AllContiguous(disks[i])
  {
    if i > 0 {
      RunNumbered(controls, disks, labels, i - 1);
      StepRefines(controls[i - 1], disks[i - 1], labels[i - 1], controls[i], disks[i]);
    }
  }

  lemma RunRefines(controls: seq<Control>, disks: seq<Disk>, labels: seq<Label>)
    requires IsDiskRun(controls, disks, labels)
    ensures IsRun(SeenRun(controls, disks), labels)
  {
    var states := SeenRun(controls, disks);
    assert View(NOTHING) == map[];
    forall i | 0 <= i < |labels| ensures Step(states[i], labels[i], states[i + 1]) {
      RunNumbered(controls, disks, labels, i);
      StepRefines(controls[i], disks[i], labels[i], controls[i + 1], disks[i + 1]);
    }
  }

  /** In every interleaving over the table, every conversation on disk is numbered 0, 1, 2, and on,
      and reads as the turns stored in it, each generated from exactly the messages before it. */
  lemma EveryDiskRunIsConsistent(controls: seq<Control>, disks: seq<Disk>, labels: seq<Label>)
    requires IsDiskRun(controls, disks, labels)
    ensures var c, d := controls[|controls| - 1], disks[|disks| - 1];
            && (forall i :: 0 <= i < |c.turns| ==> c.turns[i].history == Told(c.turns[..i], c.turns[i].conv))
            && (forall conv :: conv in d.conversations ==>
                  && Contiguous(d.rows, conv) && Messages(d.rows, conv) == Told(c.turns, conv)
                  && Alternates(Messages(d.rows, conv)) && |Messages(d.rows, conv)| <= 256)
  {
    RunNumbered(controls, disks, labels, |disks| - 1);
    RunRefines(controls, disks, labels);
    EveryRunIsConsistent(SeenRun(controls, disks), labels);
  }
}
