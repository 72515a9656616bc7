/** The server's event stream: frames numbered before they are written, the opening sent with the
    first delta, one closing or one failure at the end, over a connection any write to which may be
    lost, or arrive and still be reported as failed. */
module SseStream {
  import opened Bytes
  import opened NativeProtocol
  import opened Options

  datatype FrameKind =
    | Created | InProgress | ItemAdded | PartAdded | TextDelta
    | TextDone | PartDone | ItemDone | Completed | ResponseFailed
    | RoleChunk | ContentChunk | StopChunk | DoneMark | ErrorChunk

  datatype Part = Part(kind: FrameKind, text: ByteString)

  /** A frame on the wire; only Responses frames carry a sequence number. */
  datatype Frame = Frame(part: Part, number: Option<nat>)

  /** What is written: a Responses frame is an event line and a data line, any other a data line. */
  datatype Chunk = EventLine(kind: FrameKind) | DataLine(frame: Frame)

  /** A write arrives, or arrives and is reported as failed, or is lost. */
  datatype Outcome = Arrives | Unreported | Lost

  /** What becomes of the two writes of one frame; the second happens only after the first has arrived
      and was reported so. */
  datatype Fate = Fate(event: Outcome, data: Outcome)

  function Opening(responses: bool): seq<Part> {
    if responses then [Part(Created, []), Part(InProgress, []), Part(ItemAdded, []), Part(PartAdded, [])]
    else [Part(RoleChunk, [])]
  }

  function DeltaPart(responses: bool, text: ByteString): Part {
    Part(if responses then TextDelta else ContentChunk, text)
  }

  function DeltaParts(responses: bool, deltas: seq<ByteString>): (parts: seq<Part>)
    ensures |parts| == |deltas|
  {
    seq(|deltas|, i requires 0 <= i < |deltas| => DeltaPart(responses, deltas[i]))
  }

  function Closing(responses: bool, text: ByteString): seq<Part> {
    if responses then [Part(TextDone, text), Part(PartDone, text), Part(ItemDone, text), Part(Completed, text)]
    else [Part(StopChunk, []), Part(DoneMark, [])]
  }

  function FailurePart(responses: bool): Part {
    Part(if responses then ResponseFailed else ErrorChunk, [])
  }

  predicate IsTerminal(p: Part) {
    p.kind == Completed || p.kind == ResponseFailed || p.kind == DoneMark || p.kind == ErrorChunk
  }

  predicate IsClosing(p: Part) {
    p.kind in {TextDone, PartDone, ItemDone, Completed, StopChunk, DoneMark}
  }

  /** The frame of the i-th part tried. */
  function FrameOf(responses: bool, parts: seq<Part>, i: nat): Frame
    requires i < |parts|
  {
    Frame(parts[i], if responses then Some(i) else None)
  }

  /** The frames of the parts whose data line landed. */
  function Survivors(responses: bool, tried: seq<Part>, landed: seq<bool>): (wire: seq<Frame>)
    requires |landed| == |tried|
    ensures |wire| <= |tried|
  {
    if tried == [] then []
    else
      var n := |tried| - 1;
      Survivors(responses, tried[..n], landed[..n]) + if landed[n] then [FrameOf(responses, tried, n)] else []
  }

  /** Every part tried has landed. */
  predicate AllLanded(landed: seq<bool>) { forall i :: 0 <= i < |landed| ==> landed[i] }

  /** Only the last part tried can be missing. */
  predicate LastInDoubt(landed: seq<bool>) { forall i :: 0 <= i < |landed| - 1 ==> landed[i] }

  /** A part is missing and a later one is not. */
  predicate Gap(landed: seq<bool>) { exists i, j :: 0 <= i < j < |landed| && !landed[i] && landed[j] }

  predicate NumberedFromZero(wire: seq<Frame>) { forall i :: 0 <= i < |wire| ==> wire[i].number == Some(i) }

  /** What an event-stream client dispatches: each data line under the event name last seen. */
  function Dispatched(chunks: seq<Chunk>): seq<(Option<FrameKind>, Frame)> {
    if chunks == [] then []
    else
      var n := |chunks| - 1;
      Dispatched(chunks[..n])
      + if chunks[n].DataLine? then [(NameBefore(chunks[..n]), chunks[n].frame)] else []
  }

  /** The event name in force: a data line ends its event. */
  function NameBefore(chunks: seq<Chunk>): Option<FrameKind> {
    if chunks == [] || chunks[|chunks| - 1].DataLine? then None else Some(chunks[|chunks| - 1].kind)
  }

  /** Frames dispatched, each under its own name on a Responses stream and under none on the other. */
  function Named(responses: bool, wire: seq<Frame>): (events: seq<(Option<FrameKind>, Frame)>)
    ensures |events| == |wire|
  {
    seq(|wire|, i requires 0 <= i < |wire| => (if responses then Some(wire[i].part.kind) else None, wire[i]))
  }

  lemma DispatchedMore(chunks: seq<Chunk>, c: Chunk)
    ensures Dispatched(chunks + [c]) == Dispatched(chunks) + if c.DataLine? then [(NameBefore(chunks), c.frame)] else []
    ensures NameBefore(chunks + [c]) == if c.DataLine? then None else Some(c.kind)
  {
    assert (chunks + [c])[..|chunks|] == chunks;
  }

  lemma SurvivorsMore(responses: bool, tried: seq<Part>, landed: seq<bool>, part: Part, lands: bool)
    requires |landed| == |tried|
    ensures Survivors(responses, tried + [part], landed + [lands]) ==
            Survivors(responses, tried, landed) + if lands then [FrameOf(responses, tried + [part], |tried|)] else []
  {
    assert (tried + [part])[..|tried|] == tried && (landed + [lands])[..|tried|] == landed;
  }

  /** The chunks of a frame that arrive. */
  function Written(responses: bool, frame: Frame, fate: Fate): seq<Chunk> {
    if !responses then if fate.data == Lost then [] else [DataLine(frame)]
    else if fate.event == Lost then []
    else if fate.event == Unreported || fate.data == Lost then [EventLine(frame.part.kind)]
    else [EventLine(frame.part.kind), DataLine(frame)]
  }

  /** The data line arrives. */
  predicate Lands(responses: bool, fate: Fate) { (responses ==> fate.event == Arrives) && fate.data != Lost }

  /** Every write arrives and is reported so. */
  predicate Reported(responses: bool, fate: Fate) { (responses ==> fate.event == Arrives) && fate.data == Arrives }

  /** A client dispatches exactly the frames on the wire, each under its own name. */
  predicate Understood(responses: bool, chunks: seq<Chunk>, wire: seq<Frame>) {
    Dispatched(chunks) == Named(responses, wire) && (!responses ==> NameBefore(chunks) == None)
  }

  lemma EventWritten(chunks: seq<Chunk>, wire: seq<Frame>, kind: FrameKind)
    requires Understood(true, chunks, wire)
    ensures Understood(true, chunks + [EventLine(kind)], wire) && NameBefore(chunks + [EventLine(kind)]) == Some(kind)
  {
    DispatchedMore(chunks, EventLine(kind));
  }

  lemma DataWritten(responses: bool, chunks: seq<Chunk>, wire: seq<Frame>, frame: Frame)
    requires Understood(responses, chunks, wire)
    requires NameBefore(chunks) == if responses then Some(frame.part.kind) else None
    ensures Understood(responses, chunks + [DataLine(frame)], wire + [frame])
  {
    DispatchedMore(chunks, DataLine(frame));
  }

  lemma WrittenUnderstood(responses: bool, chunks: seq<Chunk>, wire: seq<Frame>, frame: Frame, fate: Fate)
    requires Understood(responses, chunks, wire)
    ensures Understood(responses, chunks + Written(responses, frame, fate),
                       wire + if Lands(responses, fate) then [frame] else [])
  {
    hide Named, Dispatched;
    assert chunks + [] == chunks && wire + [] == wire;
    var event := EventLine(frame.part.kind);
    if responses && fate.event != Lost {
      EventWritten(chunks, wire, frame.part.kind);
      if Lands(responses, fate) {
        DataWritten(responses, chunks + [event], wire, frame);
        assert chunks + [event] + [DataLine(frame)] == chunks + [event, DataLine(frame)];
      }
    } else if Lands(responses, fate) {
      DataWritten(responses, chunks, wire, frame);
    }
  }

  // ---- what a stream has come to ----

  /** The parts tried, which of them landed, and the chunks that arrived. */
  datatype Log = Log(tried: seq<Part>, landed: seq<bool>, chunks: seq<Chunk>)

  function Sent(responses: bool, log: Log, part: Part, fate: Fate): Log {
    var frame := Frame(part, if responses then Some(|log.tried|) else None);
    Log(log.tried + [part], log.landed + [Lands(responses, fate)], log.chunks + Written(responses, frame, fate))
  }

  /** A client dispatches the frames of the parts that landed. */
  predicate LogOk(responses: bool, log: Log) {
    |log.landed| == |log.tried| && Understood(responses, log.chunks, Survivors(responses, log.tried, log.landed))
  }

  lemma SentOk(responses: bool, log: Log, part: Part, fate: Fate)
    requires LogOk(responses, log)
    ensures LogOk(responses, Sent(responses, log, part, fate))
  {
    hide Understood, Survivors;
    var wire := Survivors(responses, log.tried, log.landed);
    SurvivorsMore(responses, log.tried, log.landed, part, Lands(responses, fate));
    WrittenUnderstood(responses, log.chunks, wire, FrameOf(responses, log.tried + [part], |log.tried|), fate);
  }

  lemma LandedMore(landed: seq<bool>, lands: bool)
    requires AllLanded(landed)
    ensures LastInDoubt(landed + [lands]) && (lands ==> AllLanded(landed + [lands]))
  {
  }

  /** After some of the parts, at least one. */
  predicate Reaches(before: seq<Part>, parts: seq<Part>, tried: seq<Part>) {
    exists k: nat :: 1 <= k <= |parts| && tried == before + parts[..k]
  }

  lemma ReachesMore(before: seq<Part>, parts: seq<Part>, tried: seq<Part>, more: seq<Part>)
    requires Reaches(before, parts, tried)
    ensures Reaches(before, parts + more, tried)
  {
    var k: nat :| 1 <= k <= |parts| && tried == before + parts[..k];
    assert (parts + more)[..k] == parts[..k];
  }

  lemma TakeMore(before: seq<Part>, parts: seq<Part>, i: nat)
    requires i < |parts|
    ensures before + parts[..i] + [parts[i]] == before + parts[..i + 1]
  {
  }

  lemma ReachesAll(before: seq<Part>, parts: seq<Part>)
    requires parts != []
    ensures Reaches(before, parts, before + parts)
  {
    assert parts[..|parts|] == parts;
  }

  class StreamEvents {
    const responses: bool
    var started: bool
    var sequence: nat
    var chunks: seq<Chunk>
    /** The plain error response written instead of a stream. */
    var refused: bool
    ghost var tried: seq<Part>
    /** Which of the parts tried reached the wire. */
    ghost var landed: seq<bool>
    /** No write has been reported as failed. */
    ghost var intact: bool

    constructor (responses: bool)
      ensures Valid() && this.responses == responses && !refused && tried == [] && landed == [] && intact
    {
      this.responses := responses;
      started, sequence, chunks, refused := false, 0, [], false;
      tried, landed, intact := [], [], true;
    }

    ghost function Kept(): Log
      reads this
    {
      Log(tried, landed, chunks)
    }

    ghost predicate Valid()
      reads this
    {
      && started == (tried != [])
      && (responses ==> sequence == |tried|)
      && |landed| == |tried| && LogOk(responses, Kept())
      && (intact ==> AllLanded(landed))
      && (tried == [] ==> intact)
      && (refused ==> !started)
    }

    /** The frames that reached the client. */
    ghost function Wire(): seq<Frame>
      requires Valid()
      reads this
    {
      Survivors(responses, tried, landed)
    }

    /** The number is taken before the writes, so a part that does not land leaves its number out. */
    method Send(part: Part, fate: Fate) returns (ok: bool)
      requires Valid() && !refused
      modifies this
      ensures Valid() && !refused && Kept() == Sent(responses, old(Kept()), part, fate)
      ensures ok == Reported(responses, fate) && intact == (old(intact) && ok)
      ensures old(AllLanded(landed)) ==> LastInDoubt(landed) && (ok ==> AllLanded(landed))
    {
      hide LogOk;
      SentOk(responses, Kept(), part, fate);
      ghost var before := landed;
      var number := None;
      if responses {
        number := Some(sequence);
        sequence := sequence + 1;
      }
      started := true;
      ok := WriteFrame(Frame(part, number), fate);
      tried, landed := tried + [part], landed + [Lands(responses, fate)];
      intact := intact && ok;
      if AllLanded(before) {
        LandedMore(before, Lands(responses, fate));
      }
    }

    /** The event line, then the data line, stopping at the first write reported as failed. */
    method WriteFrame(frame: Frame, fate: Fate) returns (ok: bool)
      modifies this`chunks
      ensures chunks == old(chunks) + Written(responses, frame, fate) && ok == Reported(responses, fate)
    {
      if responses {
        ok := Write(EventLine(frame.part.kind), fate.event);
        if !ok {
          return;
        }
      }
      ok := Write(DataLine(frame), fate.data);
    }

    method Write(chunk: Chunk, outcome: Outcome) returns (ok: bool)
      modifies this`chunks
      ensures chunks == old(chunks) + if outcome == Lost then [] else [chunk]
      ensures ok == (outcome == Arrives)
    {
      if outcome != Lost {
        chunks := chunks + [chunk];
      }
      ok := outcome == Arrives;
    }

    method SendNext(parts: seq<Part>, i: nat, ghost before: seq<Part>) returns (ok: bool)
      requires Valid() && !refused && i < |parts| && tried == before + parts[..i]
      modifies this
      ensures Valid() && !refused && tried == before + parts[..i + 1] && intact == (old(intact) && ok)
      ensures old(AllLanded(landed)) ==> LastInDoubt(landed) && (ok ==> AllLanded(landed))
    {
      hide LogOk;
      TakeMore(before, parts, i);
      var fate: Fate := *;
      ok := Send(parts[i], fate);
    }

    /** Parts tried one after another, stopping at the first that is reported as failed. */
    method SendAll(parts: seq<Part>) returns (ok: bool)
      requires Valid() && !refused
      modifies this
      ensures Valid() && !refused
      ensures ok ==> tried == old(tried) + parts && intact == old(intact)
      ensures !ok ==> !intact && Reaches(old(tried), parts, tried)
      ensures old(AllLanded(landed)) ==> LastInDoubt(landed) && (ok ==> AllLanded(landed))
    {
      hide LogOk;
      ghost var before, sound := tried, AllLanded(landed);
      var i := 0;
      ok := true;
      assert before + parts[..0] == before;
      while i < |parts|
        invariant 0 <= i <= |parts| && Valid() && !refused && ok
        invariant tried == before + parts[..i] && intact == old(intact)
        invariant sound ==> AllLanded(landed)
      {
        ok := SendNext(parts, i, before);
        i := i + 1;
        if !ok {
          return;
        }
      }
      assert parts[..i] == parts;
    }

    method Delta(text: ByteString) returns (ok: bool)
      requires Valid() && !refused
      modifies this
      ensures Valid() && !refused
      ensures var script := (if old(tried) == [] then Opening(responses) else []) + [DeltaPart(responses, text)];
              if ok then tried == old(tried) + script && intact == old(intact)
              else !intact && Reaches(old(tried), script, tried)
      ensures old(AllLanded(landed)) ==> LastInDoubt(landed) && (ok ==> AllLanded(landed))
    {
      hide LogOk;
      ghost var opening, part := if tried == [] then Opening(responses) else [], DeltaPart(responses, text);
      if !started {
        ok := SendAll(Opening(responses));
        if !ok {
          ReachesMore(old(tried), opening, tried, [part]);
          return;
        }
      }
      assert tried == old(tried) + opening;
      var fate: Fate := *;
      ok := Send(DeltaPart(responses, text), fate);
      assert tried == old(tried) + (opening + [part]);
      ReachesAll(old(tried), opening + [part]);
    }

    method Done(text: ByteString) returns (ok: bool)
      requires Valid() && !refused
      modifies this
      ensures Valid() && !refused
      ensures ok ==> tried == old(tried) + Closing(responses, text) && intact == old(intact)
      ensures !ok ==> !intact && Reaches(old(tried), Closing(responses, text), tried)
      ensures old(AllLanded(landed)) ==> LastInDoubt(landed) && (ok ==> AllLanded(landed))
    {
      hide LogOk;
      ok := SendAll(Closing(responses, text));
    }

    /** A failure: an error response before the stream has begun, one failure frame after. */
    method Failed(fate: Fate)
      requires Valid() && !refused
      modifies this
      ensures Valid()
      ensures refused == (old(tried) == [])
      ensures Kept() == if old(tried) == [] then old(Kept())
                        else Sent(responses, old(Kept()), FailurePart(responses), fate)
      ensures intact ==> old(intact)
    {
      hide LogOk;
      if !started {
        refused := true;
        return;
      }
      var _ := Send(FailurePart(responses), fate);
    }
  }

  // ---- the numbers a client sees ----

  /** Whatever was lost, the numbers that reach a Responses client strictly increase. */
  lemma {:induction false} NumbersIncrease(tried: seq<Part>, landed: seq<bool>, wire: seq<Frame>)
    requires |landed| == |tried| && wire == Survivors(true, tried, landed)
    ensures forall i :: 0 <= i < |wire| ==> wire[i].number.Some? && wire[i].number.value < |tried|
    ensures forall i, j :: 0 <= i < j < |wire| ==> wire[i].number.value < wire[j].number.value
    decreases |tried|
  {
    if tried != [] {
      var n := |tried| - 1;
      var front := Survivors(true, tried[..n], landed[..n]);
      NumbersIncrease(tried[..n], landed[..n], front);
      assert forall i :: 0 <= i < |front| ==> wire[i] == front[i];
    }
  }

  /** With the first parts landed and none after, the wire is their frames, numbered from zero. */
  lemma {:induction false} SurvivorsOfPrefix(responses: bool, tried: seq<Part>, landed: seq<bool>, n: nat)
    requires |landed| == |tried| && n <= |tried| && forall i :: 0 <= i < |landed| ==> landed[i] == (i < n)
    ensures var wire := Survivors(responses, tried, landed);
            |wire| == n && forall i :: 0 <= i < n ==> wire[i] == FrameOf(responses, tried, i)
    decreases |tried|
  {
    if tried != [] {
      var m := |tried| - 1;
      SurvivorsOfPrefix(responses, tried[..m], landed[..m], if n <= m then n else m);
    }
  }

  /** Without a gap, what landed is a prefix. */
  lemma {:induction false} NoGapIsPrefix(landed: seq<bool>) returns (n: nat)
    requires !Gap(landed)
    ensures n <= |landed| && forall i :: 0 <= i < |landed| ==> landed[i] == (i < n)
  {
    n := 0;
    while n < |landed| && landed[n]
      invariant n <= |landed| && forall i :: 0 <= i < n ==> landed[i]
    {
      n := n + 1;
    }
  }

  /** How many parts landed. */
  function Count(landed: seq<bool>): nat {
    if landed == [] then 0 else Count(landed[..|landed| - 1]) + if landed[|landed| - 1] then 1 else 0
  }

  lemma {:induction false} CountBelow(landed: seq<bool>)
    ensures Count(landed) <= |landed| && (Count(landed) == |landed| <==> AllLanded(landed))
  {
    if landed != [] { CountBelow(landed[..|landed| - 1]); }
  }

  lemma {:induction false} SurvivorCount(responses: bool, tried: seq<Part>, landed: seq<bool>)
    requires |landed| == |tried|
    ensures |Survivors(responses, tried, landed)| == Count(landed)
    decreases |tried|
  {
    if tried != [] { SurvivorCount(responses, tried[..|tried| - 1], landed[..|tried| - 1]); }
  }

  /** The frames of a longer stream begin with those of a shorter one. */
  lemma {:induction false} SurvivorsPrefix(responses: bool, tried: seq<Part>, landed: seq<bool>, n: nat)
    requires |landed| == |tried| && n <= |tried|
    ensures Survivors(responses, tried[..n], landed[..n]) <= Survivors(responses, tried, landed)
    decreases |tried|
  {
    if n < |tried| {
      var m := |tried| - 1;
      SurvivorsPrefix(responses, tried[..m], landed[..m], n);
      assert tried[..m][..n] == tried[..n] && landed[..m][..n] == landed[..n];
    } else {
      assert tried[..n] == tried && landed[..n] == landed;
    }
  }

  /** Responses frames arrive numbered 0, 1, 2, and on exactly when no part that landed was tried
      after one that did not. */
  lemma NumberedUnlessGap(tried: seq<Part>, landed: seq<bool>)
    requires |landed| == |tried|
    ensures NumberedFromZero(Survivors(true, tried, landed)) <==> !Gap(landed)
  {
    var wire := Survivors(true, tried, landed);
    if !Gap(landed) {
      var n := NoGapIsPrefix(landed);
      SurvivorsOfPrefix(true, tried, landed, n);
    } else {
      var i, j :| 0 <= i < j < |landed| && !landed[i] && landed[j];
      SkippedNumber(tried, landed, i, j);
    }
  }

  /** Where a part that landed stands on the wire. */
  lemma SurvivorAt(tried: seq<Part>, landed: seq<bool>, j: nat)
    requires |landed| == |tried| && j < |landed| && landed[j]
    ensures var place, wire := Count(landed[..j]), Survivors(true, tried, landed);
            place < |wire| && wire[place].number == Some(j)
  {
    SurvivorCount(true, tried[..j], landed[..j]);
    SurvivorsPrefix(true, tried, landed, j + 1);
    SurvivorsMore(true, tried[..j], landed[..j], tried[j], true);
    assert tried[..j] + [tried[j]] == tried[..j + 1] && landed[..j] + [true] == landed[..j + 1];
  }

  /** A part tried after a missing one stands at a place below its number. */
  lemma SkippedNumber(tried: seq<Part>, landed: seq<bool>, i: nat, j: nat)
    requires |landed| == |tried| && i < j < |landed| && !landed[i] && landed[j]
    ensures !NumberedFromZero(Survivors(true, tried, landed))
  {
    SurvivorAt(tried, landed, j);
    CountBelow(landed[..j]);
    assert !landed[..j][i];
  }

  /** A gap as it comes about: the first frame is lost, the failure frame arrives as number one. */
  method GapShown() returns (events: StreamEvents)
    ensures events.Valid() && events.responses && Gap(events.landed)
    ensures events.Wire() == [Frame(FailurePart(true), Some(1))] && !NumberedFromZero(events.Wire())
  {
    events := new StreamEvents(true);
    var ok := events.Send(Part(Created, []), Fate(Arrives, Lost));
    events.Failed(Fate(Arrives, Arrives));
    assert events.tried == [] + [Part(Created, [])] + [FailurePart(true)] && events.landed == [] + [false] + [true];
    GapAfterOne(Part(Created, []), FailurePart(true));
  }

  lemma GapAfterOne(first: Part, second: Part)
    ensures var tried, landed := [] + [first] + [second], [] + [false] + [true];
            && Gap(landed) && Survivors(true, tried, landed) == [Frame(second, Some(1))]
            && !NumberedFromZero(Survivors(true, tried, landed))
  {
    SurvivorsMore(true, [], [], first, false);
    SurvivorsMore(true, [] + [first], [] + [false], second, true);
    var landed := [] + [false] + [true];
    assert !landed[0] && landed[1];
    assert [] + [Frame(second, Some(1))] == [Frame(second, Some(1))];
    NumberedUnlessGap([] + [first] + [second], landed);
  }

  // ---- the text a client gathers ----

  /** Every part tried is on the wire, numbered from zero. */
  predicate Intact(responses: bool, tried: seq<Part>, wire: seq<Frame>) {
    |wire| == |tried| && forall i :: 0 <= i < |wire| ==> wire[i] == FrameOf(responses, tried, i)
  }

  lemma AllLandedIntact(responses: bool, tried: seq<Part>, landed: seq<bool>)
    requires |landed| == |tried| && AllLanded(landed)
    ensures Intact(responses, tried, Survivors(responses, tried, landed))
  {
    SurvivorsOfPrefix(responses, tried, landed, |tried|);
  }

  /** The text a client gathers from the delta frames. */
  function Gathered(wire: seq<Frame>): ByteString {
    if wire == [] then []
    else
      var last := wire[|wire| - 1].part;
      Gathered(wire[..|wire| - 1]) + if last.kind == TextDelta || last.kind == ContentChunk then last.text else []
  }

  lemma {:induction false} GatheredSkips(responses: bool, tried: seq<Part>, wire: seq<Frame>, n: nat)
    requires Intact(responses, tried, wire) && n <= |tried|
    requires forall i :: n <= i < |tried| ==> tried[i].kind != TextDelta && tried[i].kind != ContentChunk
    ensures Gathered(wire) == Gathered(wire[..n])
    decreases |tried|
  {
    if n < |tried| {
      GatheredSkips(responses, tried[..|tried| - 1], wire[..|wire| - 1], n);
      assert wire[..|wire| - 1][..n] == wire[..n];
    } else {
      assert wire[..n] == wire;
    }
  }

  lemma {:induction false} GatheredDeltas(responses: bool, tried: seq<Part>, wire: seq<Frame>, n: nat,
                                          deltas: seq<ByteString>)
    requires Intact(responses, tried, wire) && n + |deltas| == |tried|
    requires forall i :: 0 <= i < n ==> tried[i].kind != TextDelta && tried[i].kind != ContentChunk
    requires forall i :: 0 <= i < |deltas| ==> tried[n + i] == DeltaPart(responses, deltas[i])
    ensures Gathered(wire) == Concat(deltas)
    decreases |deltas|
  {
    if deltas == [] {
      GatheredSkips(responses, tried, wire, 0);
      assert wire[..0] == [];
    } else {
      GatheredDeltas(responses, tried[..|tried| - 1], wire[..|wire| - 1], n, deltas[..|deltas| - 1]);
    }
  }
}
